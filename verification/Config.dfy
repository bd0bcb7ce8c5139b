/** Configuration normalisation (lib/config/config.go:275-407, 520-602,
    folderconfiguration.go:289-336, deviceconfiguration.go:53-120): what `prepare` makes of
    devices, folders and ignore lists. */
module Config {
  import opened Bytes
  import opened Sorting
  import opened ConfigLists

  type DeviceID = Str

  /** The all-zero device ID. */
  const EMPTY_ID: DeviceID := seq(32, i => 0)

  datatype FolderDevice = FolderDevice(id: DeviceID, introducedBy: DeviceID, password: Str)

  datatype FolderType = SendReceive | SendOnly | ReceiveOnly | ReceiveEncrypted

  /** The scalar folder settings that preparation clamps. */
  datatype Settings = Settings(rescanIntervalS: int, fsWatcherEnabled: bool, fsWatcherDelayS: real,
                               cleanupIntervalS: int, markerName: Str, maxConcurrentWrites: int, ignorePerms: bool)

  datatype Folder = Folder(id: Str, path: Str, typ: FolderType, devices: seq<FolderDevice>, settings: Settings)

  datatype ObservedFolder = ObservedFolder(id: Str, time: int)

  datatype Device = Device(id: DeviceID, untrusted: bool, introducer: bool, autoAcceptFolders: bool,
                           ignoredFolders: seq<ObservedFolder>, maxSendKbps: int, maxRecvKbps: int)

  datatype ObservedDevice = ObservedDevice(id: DeviceID, time: int)

  datatype Options = Options(maxSendKbps: int, maxRecvKbps: int, limitBandwidthInLan: bool)

  datatype Configuration = Configuration(devices: seq<Device>, folders: seq<Folder>,
                                         ignoredDevices: seq<ObservedDevice>, options: Options)

  datatype Error = FolderIDEmpty | FolderPathEmpty(id: Str) | FolderIDDuplicate(id: Str)

  datatype Result<T> = Ok(value: T) | Err(error: Error)

  // ---------------------------------------------------------------- keys and orders

  function DeviceKey(d: Device): DeviceID { d.id }
  function FolderDeviceKey(d: FolderDevice): DeviceID { d.id }
  function FolderKey(f: Folder): Str { f.id }
  function ObservedKey(f: ObservedFolder): Str { f.id }

  function KeyOrder<T>(key: T -> Str): (T, T) -> bool { (a, b) => LessOrEqual(key(a), key(b)) }

  predicate ByTime(a: ObservedFolder, b: ObservedFolder) { a.time <= b.time }

  /** Sorted by key, without duplicates. */
  ghost predicate AscendingBy<T>(key: T -> Str, s: seq<T>) {
    forall i, j | 0 <= i < j < |s| :: Less(key(s[i]), key(s[j]))
  }

  lemma KeyOrderTotal<T(!new)>(key: T -> Str)
    ensures Total(KeyOrder(key))
  {
    LessOrEqualTotal();
    forall x, y ensures KeyOrder(key)(x, y) || KeyOrder(key)(y, x) {
      assert LessOrEqual(key(x), key(y)) || LessOrEqual(key(y), key(x));
    }
    forall x, y, z | KeyOrder(key)(x, y) && KeyOrder(key)(y, z) ensures KeyOrder(key)(x, z) {
      assert LessOrEqual(key(x), key(y)) && LessOrEqual(key(y), key(z));
    }
  }

  /** Sorting a list without duplicate keys makes it strictly ascending, keeping its elements. */
  lemma SortAscends<T(!new)>(key: T -> Str, s: seq<T>)
    requires DistinctBy(key, s)
    ensures AscendingBy(key, Sort(KeyOrder(key), s))
    ensures forall x :: x in Sort(KeyOrder(key), s) <==> x in s
  {
    var r := Sort(KeyOrder(key), s);
    KeyOrderTotal(key);
    SortOrdered(KeyOrder(key), s);
    SortDistinctBy(KeyOrder(key), key, s);
    SortPermutes(KeyOrder(key), s);
    forall i, j | 0 <= i < j < |r| ensures Less(key(r[i]), key(r[j])) {
      assert KeyOrder(key)(r[i], r[j]);
    }
  }

  lemma AscendingSorted<T>(key: T -> Str, s: seq<T>)
    requires AscendingBy(key, s)
    ensures Sort(KeyOrder(key), s) == s && DistinctBy(key, s)
  {
    SortFixed(KeyOrder(key), s);
    forall i, j | 0 <= i < j < |s| ensures key(s[i]) != key(s[j]) { LessIrreflexive(key(s[i])); }
  }

  predicate HasKey<T(==)>(key: T -> Str, s: seq<T>, k: Str) { exists x | x in s :: key(x) == k }

  // ---------------------------------------------------------------- folder devices

  /** The devices of the configuration by ID, with their untrusted flag. */
  function Existing(ds: seq<Device>): map<DeviceID, bool> {
    if ds == [] then map[] else
      Existing(ds[..|ds| - 1])[ds[|ds| - 1].id := ds[|ds| - 1].untrusted]
  }

  function Unknown(existing: map<DeviceID, bool>): (FolderDevice, seq<FolderDevice>) -> bool {
    (d: FolderDevice, kept: seq<FolderDevice>) => d.id !in existing
  }

  predicate SeenDevice(d: FolderDevice, kept: seq<FolderDevice>) { HasKey(FolderDeviceKey, kept, d.id) }

  /** config.go:520-535 */
  function WithDevice(ds: seq<FolderDevice>, myID: DeviceID): seq<FolderDevice> {
    if myID == EMPTY_ID || HasKey(FolderDeviceKey, ds, myID) then ds else ds + [FolderDevice(myID, EMPTY_ID, [])]
  }

  /** Not a password-less share of a plain folder with an untrusted device. */
  predicate MayShare(typ: FolderType, existing: map<DeviceID, bool>, d: FolderDevice) {
    d.password != [] || typ == ReceiveEncrypted || !(d.id in existing && existing[d.id])
  }

  function Sharing(typ: FolderType, existing: map<DeviceID, bool>): FolderDevice -> bool {
    (d: FolderDevice) => MayShare(typ, existing, d)
  }

  /** folderconfiguration.go:295-302 */
  function FolderDevices(ds: seq<FolderDevice>, typ: FolderType, myID: DeviceID, existing: map<DeviceID, bool>): seq<FolderDevice> {
    var known := SwapDrop(Unknown(existing), ds, 0);
    var unique := SwapDrop(SeenDevice, known, 0);
    var withMe := WithDevice(unique, myID);
    Sort(KeyOrder(FolderDeviceKey), Filter(Sharing(typ, existing), withMe))
  }

  /** What preparation promises about the devices of a folder. */
  ghost predicate GoodFolderDevices(ds: seq<FolderDevice>, typ: FolderType, myID: DeviceID, existing: map<DeviceID, bool>) {
    && AscendingBy(FolderDeviceKey, ds)
    && (forall d | d in ds :: d.id in existing && MayShare(typ, existing, d))
    && (myID != EMPTY_ID && !HasKey(FolderDeviceKey, ds, myID) ==>
          typ != ReceiveEncrypted && myID in existing && existing[myID])
  }

  lemma CleanMeansDistinct(s: seq<FolderDevice>)
    requires Clean(SeenDevice, s, |s|)
    ensures DistinctBy(FolderDeviceKey, s)
  {
    forall i, j | 0 <= i < j < |s| ensures s[i].id != s[j].id {
      assert !SeenDevice(s[j], s[..j]);
      assert s[..j][i] == s[i] && s[i] in s[..j];
    }
  }

  lemma DistinctMeansClean(s: seq<FolderDevice>)
    requires DistinctBy(FolderDeviceKey, s)
    ensures Clean(SeenDevice, s, |s|)
  {
    forall k | 0 <= k < |s| ensures !SeenDevice(s[k], s[..k]) {
      forall x | x in s[..k] ensures FolderDeviceKey(x) != s[k].id {
        var i :| 0 <= i < k && s[i] == x;
        assert FolderDeviceKey(s[i]) != FolderDeviceKey(s[k]);
      }
    }
  }

  /** The unique known devices, plus ourselves. */
  lemma WithMeFacts(ds: seq<FolderDevice>, myID: DeviceID, existing: map<DeviceID, bool>)
    requires myID == EMPTY_ID || myID in existing
    ensures var w := WithDevice(SwapDrop(SeenDevice, SwapDrop(Unknown(existing), ds, 0), 0), myID);
            && DistinctBy(FolderDeviceKey, w)
            && (forall d | d in w :: d.id in existing)
            && (myID != EMPTY_ID ==> HasKey(FolderDeviceKey, w, myID))
  {
    var known := SwapDrop(Unknown(existing), ds, 0);
    var unique := SwapDrop(SeenDevice, known, 0);
    var w := WithDevice(unique, myID);
    SwapDropFacts(Unknown(existing), ds, 0);
    SwapDropFacts(SeenDevice, known, 0);
    CleanMeansDistinct(unique);
    forall d | d in known ensures d.id in existing {
      var k :| 0 <= k < |known| && known[k] == d;
      assert !Unknown(existing)(known[k], known[..k]);
    }
    if w != unique {
      forall i | 0 <= i < |unique| ensures FolderDeviceKey(unique[i]) != myID { assert unique[i] in unique; }
      assert w[|w| - 1] in w;
    }
  }

  lemma FolderDevicesGood(ds: seq<FolderDevice>, typ: FolderType, myID: DeviceID, existing: map<DeviceID, bool>)
    requires myID == EMPTY_ID || myID in existing
    ensures GoodFolderDevices(FolderDevices(ds, typ, myID, existing), typ, myID, existing)
  {
    var w := WithDevice(SwapDrop(SeenDevice, SwapDrop(Unknown(existing), ds, 0), 0), myID);
    var keep := Sharing(typ, existing);
    var f := Filter(keep, w);
    WithMeFacts(ds, myID, existing);
    FilterDistinctBy(keep, FolderDeviceKey, w);
    forall x ensures x in f <==> x in w && keep(x) { FilterMember(keep, w, x); }
    SortAscends(FolderDeviceKey, f);
    if myID != EMPTY_ID {
      var me :| me in w && FolderDeviceKey(me) == myID;
      assert keep(me) ==> me in f;
    }
  }

  /** Preparing prepared folder devices changes nothing. */
  lemma FolderDevicesFixed(ds: seq<FolderDevice>, typ: FolderType, myID: DeviceID, existing: map<DeviceID, bool>)
    requires GoodFolderDevices(ds, typ, myID, existing)
    ensures FolderDevices(ds, typ, myID, existing) == ds
  {
    var keep := Sharing(typ, existing);
    AscendingSorted(FolderDeviceKey, ds);
    forall k | 0 <= k < |ds| ensures !Unknown(existing)(ds[k], ds[..k]) { assert ds[k] in ds; }
    SwapDropFixed(Unknown(existing), ds, 0);
    DistinctMeansClean(ds);
    SwapDropFixed(SeenDevice, ds, 0);
    FilterFixed(keep, ds);
    if WithDevice(ds, myID) != ds {
      var me := FolderDevice(myID, EMPTY_ID, []);
      FilterConcat(keep, ds, [me]);
      assert !keep(me) && [me][1..] == [];
      assert Filter(keep, [me]) == [] && ds + [] == ds;
    }
  }

  // ---------------------------------------------------------------- folders

  const MAX_RESCAN_INTERVAL_S: int := 365 * 24 * 60 * 60

  /** ".stfolder" */
  const DEFAULT_MARKER: Str := [46, 115, 116, 102, 111, 108, 100, 101, 114]

  function Clamp(x: int): int {
    if x > MAX_RESCAN_INTERVAL_S then MAX_RESCAN_INTERVAL_S else if x < 0 then 0 else x
  }

  /** folderconfiguration.go:304-335 */
  function Normalized(s: Settings, typ: FolderType): Settings {
    Settings(
      Clamp(s.rescanIntervalS),
      s.fsWatcherEnabled && s.fsWatcherDelayS > 0.0,
      if s.fsWatcherDelayS <= 0.0 then 10.0 else if s.fsWatcherDelayS < 0.01 then 0.01 else s.fsWatcherDelayS,
      Clamp(s.cleanupIntervalS),
      if s.markerName == [] then DEFAULT_MARKER else s.markerName,
      if s.maxConcurrentWrites <= 0 then 16 else if s.maxConcurrentWrites > 256 then 256 else s.maxConcurrentWrites,
      s.ignorePerms || typ == ReceiveEncrypted)
  }

  function PreparedFolder(f: Folder, myID: DeviceID, existing: map<DeviceID, bool>): Folder {
    f.(devices := FolderDevices(f.devices, f.typ, myID, existing), settings := Normalized(f.settings, f.typ))
  }

  /** The loop of config.go:358-380 over the remaining folders, with the IDs seen before. */
  function FoldersFrom(fs: seq<Folder>, seen: set<Str>, myID: DeviceID, existing: map<DeviceID, bool>): Result<seq<Folder>> {
    if fs == [] then Ok([])
    else if fs[0].id == [] then Err(FolderIDEmpty)
    else if fs[0].path == [] then Err(FolderPathEmpty(fs[0].id))
    else if fs[0].id in seen then Err(FolderIDDuplicate(fs[0].id))
    else
      match FoldersFrom(fs[1..], seen + {fs[0].id}, myID, existing)
      case Err(e) => Err(e)
      case Ok(rest) => Ok([PreparedFolder(fs[0], myID, existing)] + rest)
  }

  /** The folders that can be prepared: named, with a path, and no ID twice or seen before. */
  ghost predicate Acceptable(fs: seq<Folder>, seen: set<Str>) {
    && (forall i | 0 <= i < |fs| :: fs[i].id != [] && fs[i].path != [] && fs[i].id !in seen)
    && DistinctBy(FolderKey, fs)
  }

  lemma {:induction false} FoldersFromFacts(fs: seq<Folder>, seen: set<Str>, myID: DeviceID, existing: map<DeviceID, bool>)
    ensures var r := FoldersFrom(fs, seen, myID, existing);
            && (r.Ok? <==> Acceptable(fs, seen))
            && (r.Ok? ==> |r.value| == |fs|)
            && (r.Ok? ==> forall i | 0 <= i < |fs| :: r.value[i] == PreparedFolder(fs[i], myID, existing))
  {
    if fs != [] {
      AcceptableCons(fs, seen);
      FoldersFromFacts(fs[1..], seen + {fs[0].id}, myID, existing);
      var r := FoldersFrom(fs, seen, myID, existing);
      if r.Ok? {
        forall i | 1 <= i < |fs| ensures r.value[i] == PreparedFolder(fs[i], myID, existing) {
          assert r.value[i] == r.value[1..][i - 1] && fs[i] == fs[1..][i - 1];
        }
      }
    }
  }

  lemma AcceptableCons(fs: seq<Folder>, seen: set<Str>)
    requires fs != []
    ensures Acceptable(fs, seen) <==>
            fs[0].id != [] && fs[0].path != [] && fs[0].id !in seen && Acceptable(fs[1..], seen + {fs[0].id})
  {
    var t := fs[1..];
    if Acceptable(t, seen + {fs[0].id}) && fs[0].id != [] && fs[0].path != [] && fs[0].id !in seen {
      assert forall i | 1 <= i < |fs| :: fs[i] == t[i - 1];
    }
    if Acceptable(fs, seen) {
      assert forall i | 0 <= i < |t| :: t[i] == fs[i + 1] && FolderKey(fs[0]) != FolderKey(fs[i + 1]);
    }
  }

  // ---------------------------------------------------------------- devices

  /** config.go:302-317 */
  function WithMyDevice(ds: seq<Device>, myID: DeviceID): seq<Device> {
    if myID == EMPTY_ID || HasKey(DeviceKey, ds, myID) then ds else ds + [Device(myID, false, false, false, [], 0, 0)]
  }

  predicate SeenOrEmpty(d: Device, kept: seq<Device>) { d.id == EMPTY_ID || HasKey(DeviceKey, kept, d.id) }

  /** config.go:332-341 */
  function DeviceList(ds: seq<Device>, myID: DeviceID): seq<Device> {
    Sort(KeyOrder(DeviceKey), SwapDrop(SeenOrEmpty, WithMyDevice(ds, myID), 0))
  }

  ghost predicate GoodDeviceList(ds: seq<Device>, myID: DeviceID) {
    && AscendingBy(DeviceKey, ds)
    && (forall d | d in ds :: d.id != EMPTY_ID)
    && (myID != EMPTY_ID ==> HasKey(DeviceKey, ds, myID))
  }

  lemma CleanDevices(s: seq<Device>)
    ensures Clean(SeenOrEmpty, s, |s|) <==> DistinctBy(DeviceKey, s) && forall d | d in s :: d.id != EMPTY_ID
  {
    if Clean(SeenOrEmpty, s, |s|) {
      forall i, j | 0 <= i < j < |s| ensures DeviceKey(s[i]) != DeviceKey(s[j]) {
        assert !SeenOrEmpty(s[j], s[..j]);
        assert s[..j][i] == s[i] && s[i] in s[..j];
      }
      forall d | d in s ensures d.id != EMPTY_ID {
        var k :| 0 <= k < |s| && s[k] == d;
        assert !SeenOrEmpty(s[k], s[..k]);
      }
    }
    if DistinctBy(DeviceKey, s) && forall d | d in s :: d.id != EMPTY_ID {
      forall k | 0 <= k < |s| ensures !SeenOrEmpty(s[k], s[..k]) {
        assert s[k] in s;
        forall x | x in s[..k] ensures DeviceKey(x) != s[k].id {
          var i :| 0 <= i < k && s[i] == x;
          assert DeviceKey(s[i]) != DeviceKey(s[k]);
        }
      }
    }
  }

  lemma DeviceListGood(ds: seq<Device>, myID: DeviceID)
    ensures GoodDeviceList(DeviceList(ds, myID), myID)
  {
    var w := WithMyDevice(ds, myID);
    var r := SwapDrop(SeenOrEmpty, w, 0);
    SwapDropFacts(SeenOrEmpty, w, 0);
    CleanDevices(r);
    SortAscends(DeviceKey, r);
    if myID != EMPTY_ID {
      assert HasKey(DeviceKey, w, myID) by {
        if w != ds { assert w[|w| - 1] in w && DeviceKey(w[|w| - 1]) == myID; }
      }
      var me :| me in w && DeviceKey(me) == myID;
      assert Accounted(SeenOrEmpty, r, me);
      if me !in r {
        var k :| 0 <= k <= |r| && SeenOrEmpty(me, r[..k]);
        var y :| y in r[..k] && DeviceKey(y) == myID;
        assert y in r;
      }
    }
  }

  lemma DeviceListFixed(ds: seq<Device>, myID: DeviceID)
    requires GoodDeviceList(ds, myID)
    ensures DeviceList(ds, myID) == ds
  {
    AscendingSorted(DeviceKey, ds);
    CleanDevices(ds);
    SwapDropFixed(SeenOrEmpty, ds, 0);
  }

  lemma {:induction false} ExistingFacts(ds: seq<Device>, id: DeviceID)
    ensures id in Existing(ds) <==> HasKey(DeviceKey, ds, id)
  {
    if ds != [] {
      var init, last := ds[..|ds| - 1], ds[|ds| - 1];
      ExistingFacts(init, id);
      assert ds == init + [last];
      if HasKey(DeviceKey, ds, id) && last.id != id {
        var x :| x in ds && DeviceKey(x) == id;
        assert x in init;
      }
      if HasKey(DeviceKey, init, id) {
        var x :| x in init && DeviceKey(x) == id;
        assert x in ds;
      }
      assert last in ds;
    }
  }

  // ---------------------------------------------------------------- ignored folders

  /** The Go map of deviceconfiguration.go:111-120: of two entries for a folder the later is kept. */
  function Newest(l: seq<ObservedFolder>): map<Str, ObservedFolder> {
    if l == [] then map[] else
      var m, f := Newest(l[..|l| - 1]), l[|l| - 1];
      if f.id in m && m[f.id].time >= f.time then m else m[f.id := f]
  }

  /** The newest entries of the folders that are not shared, deviceconfiguration.go:58-62. */
  function Remaining(m: map<Str, ObservedFolder>, shared: set<Str>): map<Str, ObservedFolder> {
    map id | id in m && id !in shared :: m[id]
  }

  function Ignored(d: Device, shared: set<Str>): map<Str, ObservedFolder> { Remaining(Newest(d.ignoredFolders), shared) }

  /** What sortedObservedFolderSlice may return (deviceconfiguration.go:100-109): the entries of
      the map in the order of their times. Entries with equal times come in the order of the Go
      map, which is any. */
  ghost predicate Lists(l: seq<ObservedFolder>, m: map<Str, ObservedFolder>) {
    && Ordered(ByTime, l) && DistinctBy(ObservedKey, l)
    && forall f :: f in l <==> f.id in m && m[f.id] == f
  }

  lemma {:induction false} NewestFacts(l: seq<ObservedFolder>, id: Str)
    ensures var m := Newest(l);
            && (id in m <==> HasKey(ObservedKey, l, id))
            && (id in m ==> m[id].id == id && m[id] in l && forall f | f in l && f.id == id :: f.time <= m[id].time)
  {
    if l != [] {
      var init, last := l[..|l| - 1], l[|l| - 1];
      assert l == init + [last];
      NewestFacts(init, id);
      assert HasKey(ObservedKey, l, id) <==> HasKey(ObservedKey, init, id) || last.id == id by {
        assert last in l;
        if HasKey(ObservedKey, init, id) {
          var x :| x in init && ObservedKey(x) == id;
          assert x in l;
        }
      }
    }
  }

  /** A list without duplicates is its own newest entries. */
  lemma NewestDistinct(l: seq<ObservedFolder>, f: ObservedFolder)
    requires DistinctBy(ObservedKey, l)
    ensures f in l <==> f.id in Newest(l) && Newest(l)[f.id] == f
  {
    NewestFacts(l, f.id);
    if f in l {
      assert HasKey(ObservedKey, l, f.id);
      var g := Newest(l)[f.id];
      var i, j :| 0 <= i < |l| && 0 <= j < |l| && l[i] == f && l[j] == g;
      assert i != j ==> ObservedKey(l[i]) != ObservedKey(l[j]);
    }
  }

  /** What preparing a device may yield, deviceconfiguration.go:53-78. */
  ghost predicate PreparesDevice(d: Device, shared: set<Str>, p: Device) {
    && p == d.(ignoredFolders := p.ignoredFolders,
               introducer := d.introducer && !d.untrusted,
               autoAcceptFolders := d.autoAcceptFolders && !d.untrusted)
    && Lists(p.ignoredFolders, Ignored(d, shared))
  }

  ghost predicate GoodDevice(d: Device, shared: set<Str>) {
    && DistinctBy(ObservedKey, d.ignoredFolders) && Ordered(ByTime, d.ignoredFolders)
    && (forall f | f in d.ignoredFolders :: f.id !in shared)
    && (d.untrusted ==> !d.introducer && !d.autoAcceptFolders)
  }

  /** A good device may be left as it is. */
  lemma GoodDeviceListed(d: Device, shared: set<Str>)
    requires GoodDevice(d, shared)
    ensures PreparesDevice(d, shared, d)
  {
    forall f ensures f in d.ignoredFolders <==> f.id in Ignored(d, shared) && Ignored(d, shared)[f.id] == f {
      NewestDistinct(d.ignoredFolders, f);
    }
  }

  // ---------------------------------------------------------------- ties

  /** No two entries have the same time. */
  ghost predicate NoTies(l: seq<ObservedFolder>) {
    forall i, j | 0 <= i < j < |l| :: l[i].time != l[j].time
  }

  ghost predicate TieFree(m: map<Str, ObservedFolder>) {
    forall a, b | a in m && b in m && a != b :: m[a].time != m[b].time
  }

  ghost predicate Keyed(m: map<Str, ObservedFolder>) { forall id | id in m :: m[id].id == id }

  lemma IgnoredKeyed(d: Device, shared: set<Str>)
    ensures Keyed(Ignored(d, shared))
  {
    forall id | id in Ignored(d, shared) ensures Ignored(d, shared)[id].id == id { NewestFacts(d.ignoredFolders, id); }
  }

  lemma NoTiesIff(l: seq<ObservedFolder>, m: map<Str, ObservedFolder>)
    requires Lists(l, m) && Keyed(m)
    ensures NoTies(l) <==> TieFree(m)
  {
    if NoTies(l) {
      forall a, b | a in m && b in m && a != b ensures m[a].time != m[b].time {
        assert m[a] in l && m[b] in l;
        var i, j :| 0 <= i < |l| && 0 <= j < |l| && l[i] == m[a] && l[j] == m[b];
        assert i != j;
      }
    }
    if TieFree(m) {
      forall i, j | 0 <= i < j < |l| ensures l[i].time != l[j].time {
        assert ObservedKey(l[i]) != ObservedKey(l[j]);
        assert l[i] in l && l[j] in l;
      }
    }
  }

  /** Without ties there is one order by time. */
  lemma {:induction false} ListedOnce(l: seq<ObservedFolder>, l': seq<ObservedFolder>)
    requires Ordered(ByTime, l) && NoTies(l) && Ordered(ByTime, l') && DistinctBy(ObservedKey, l')
    requires forall f :: f in l <==> f in l'
    ensures l == l'
  {
    if l == [] {
      EmptyOrNot(l');
    } else {
      assert l[0] in l';
      assert l'[0] in l;
      var i :| 0 <= i < |l| && l[i] == l'[0];
      var j :| 0 <= j < |l'| && l'[j] == l[0];
      FirstIsEarliest(l, i);
      FirstIsEarliest(l', j);
      OnlyOneEarliest(l, i);
      assert l[0] == l'[0];
      forall f ensures f in l[1..] <==> f in l'[1..] {
        HeadOnce(l, f);
        HeadOnce(l', f);
      }
      ListedOnce(l[1..], l'[1..]);
      assert l == [l[0]] + l[1..] && l' == [l'[0]] + l'[1..];
    }
  }

  lemma FirstIsEarliest(l: seq<ObservedFolder>, i: nat)
    requires Ordered(ByTime, l) && i < |l|
    ensures l[0].time <= l[i].time
  {
    assert i > 0 ==> ByTime(l[0], l[i]);
  }

  lemma OnlyOneEarliest(l: seq<ObservedFolder>, i: nat)
    requires NoTies(l) && i < |l| && l[0].time == l[i].time
    ensures i == 0
  {}

  lemma EmptyOrNot<T>(l: seq<T>)
    ensures l == [] || exists x :: x in l
  {
    if l != [] {
      assert l[0] in l;
    }
  }

  lemma HeadOnce(l: seq<ObservedFolder>, f: ObservedFolder)
    requires l != [] && (NoTies(l) || DistinctBy(ObservedKey, l))
    ensures f in l[1..] <==> f in l && f != l[0]
  {
    assert l == [l[0]] + l[1..];
    if f in l[1..] {
      var i :| 0 <= i < |l[1..]| && l[1..][i] == f;
      assert l[i + 1] == f;
      assert DistinctBy(ObservedKey, l) ==> ObservedKey(l[0]) != ObservedKey(l[i + 1]);
    }
  }

  /** With a tie there is another order. */
  lemma ListedTwice(l: seq<ObservedFolder>, m: map<Str, ObservedFolder>) returns (l': seq<ObservedFolder>)
    requires Lists(l, m) && !NoTies(l)
    ensures Lists(l', m) && l' != l
  {
    var i, j :| 0 <= i < j < |l| && l[i].time == l[j].time;
    l' := l[i := l[j]][j := l[i]];
    assert ObservedKey(l[i]) != ObservedKey(l[j]);
    forall a, b | 0 <= a < b < |l'| ensures ByTime(l'[a], l'[b]) && ObservedKey(l'[a]) != ObservedKey(l'[b]) {
      SwapOrdered(l, i, j, a, b);
    }
    forall f ensures f in l' <==> f in l { SwapMember(l, i, j, f); }
  }

  lemma SwapOrdered(l: seq<ObservedFolder>, i: nat, j: nat, a: nat, b: nat)
    requires Ordered(ByTime, l) && DistinctBy(ObservedKey, l) && i < j < |l| && a < b < |l| && l[i].time == l[j].time
    ensures var l' := l[i := l[j]][j := l[i]]; ByTime(l'[a], l'[b]) && ObservedKey(l'[a]) != ObservedKey(l'[b])
  {
    assert ByTime(l[a], l[b]);
    var a', b' := if a == i then j else if a == j then i else a, if b == i then j else if b == j then i else b;
    assert a' < b' ==> ObservedKey(l[a']) != ObservedKey(l[b']);
    assert b' < a' ==> ObservedKey(l[b']) != ObservedKey(l[a']);
  }

  lemma SwapMember<T>(l: seq<T>, i: nat, j: nat, f: T)
    requires i < j < |l|
    ensures f in l[i := l[j]][j := l[i]] <==> f in l
  {
    var l' := l[i := l[j]][j := l[i]];
    if f in l {
      var k :| 0 <= k < |l| && l[k] == f;
      assert l'[if k == i then j else if k == j then i else k] == f;
    }
  }

  // ---------------------------------------------------------------- the configuration

  /** The IDs of the folders shared with a device. */
  function SharedWith(fs: seq<Folder>, id: DeviceID): set<Str> {
    set f | f in fs && HasKey(FolderDeviceKey, f.devices, id) :: f.id
  }

  ghost predicate PreparesDevices(ds: seq<Device>, fs: seq<Folder>, ps: seq<Device>) {
    && |ps| == |ds|
    && forall i | 0 <= i < |ds| :: PreparesDevice(ds[i], SharedWith(fs, ds[i].id), ps[i])
  }

  function NotConfigured(existing: map<DeviceID, bool>): ObservedDevice -> bool {
    (d: ObservedDevice) => d.id !in existing
  }

  /** What `prepare` may make of a configuration already at the current version (config.go:275-290):
      all is determined but the order of ignored folders with equal times. */
  ghost predicate Prepares(c: Configuration, myID: DeviceID, r: Result<Configuration>) {
    var ds := DeviceList(c.devices, myID);
    var existing := Existing(ds);
    match FoldersFrom(c.folders, {}, myID, existing)
    case Err(e) => r == Err(e)
    case Ok(fs) =>
      && r.Ok? && PreparesDevices(ds, fs, r.value.devices)
      && r.value.folders == Sort(KeyOrder(FolderKey), fs)
      && r.value.ignoredDevices == Filter(NotConfigured(existing), c.ignoredDevices)
      && r.value.options == c.options
  }

  ghost predicate GoodFolder(f: Folder, myID: DeviceID, existing: map<DeviceID, bool>) {
    && f.id != [] && f.path != []
    && f.settings == Normalized(f.settings, f.typ)
    && GoodFolderDevices(f.devices, f.typ, myID, existing)
  }

  /** What preparation promises. */
  ghost predicate Prepared(c: Configuration, myID: DeviceID) {
    && GoodDeviceList(c.devices, myID)
    && AscendingBy(FolderKey, c.folders)
    && (forall f | f in c.folders :: GoodFolder(f, myID, Existing(c.devices)))
    && (forall d | d in c.devices :: GoodDevice(d, SharedWith(c.folders, d.id)))
    && (forall d | d in c.ignoredDevices :: !HasKey(DeviceKey, c.devices, d.id))
  }

  lemma {:induction false} SameExisting(a: seq<Device>, b: seq<Device>)
    requires |a| == |b| && forall i | 0 <= i < |a| :: a[i].id == b[i].id && a[i].untrusted == b[i].untrusted
    ensures Existing(a) == Existing(b)
  {
    if a != [] {
      SameExisting(a[..|a| - 1], b[..|b| - 1]);
    }
  }

  lemma PreparedFoldersDistinct(fs: seq<Folder>, gs: seq<Folder>, myID: DeviceID, existing: map<DeviceID, bool>)
    requires DistinctBy(FolderKey, fs)
    requires |gs| == |fs| && forall i | 0 <= i < |fs| :: gs[i] == PreparedFolder(fs[i], myID, existing)
    ensures DistinctBy(FolderKey, gs)
  {
    forall i, j | 0 <= i < j < |gs| ensures FolderKey(gs[i]) != FolderKey(gs[j]) {
      assert FolderKey(fs[i]) != FolderKey(fs[j]);
    }
  }

  lemma PreparedFoldersGood(fs: seq<Folder>, gs: seq<Folder>, myID: DeviceID, existing: map<DeviceID, bool>)
    requires Acceptable(fs, {}) && (myID == EMPTY_ID || myID in existing)
    requires |gs| == |fs| && forall i | 0 <= i < |fs| :: gs[i] == PreparedFolder(fs[i], myID, existing)
    ensures AscendingBy(FolderKey, Sort(KeyOrder(FolderKey), gs))
    ensures forall f | f in Sort(KeyOrder(FolderKey), gs) :: GoodFolder(f, myID, existing)
    ensures forall f :: f in Sort(KeyOrder(FolderKey), gs) <==> f in gs
  {
    PreparedFoldersDistinct(fs, gs, myID, existing);
    SortAscends(FolderKey, gs);
    forall f | f in gs ensures GoodFolder(f, myID, existing) {
      var i :| 0 <= i < |gs| && gs[i] == f;
      PreparedFolderGood(fs[i], myID, existing);
    }
  }

  /** Preparation leaves sensible settings alone and makes the others sensible: intervals of at most
      a year, a watcher only with a positive delay, a marker, and up to 256 concurrent writes. */
  lemma NormalizedMeans(s: Settings, typ: FolderType)
    ensures var n := Normalized(s, typ);
            && Sensible(n) && (typ == ReceiveEncrypted ==> n.ignorePerms)
            && (Sensible(s) && (typ == ReceiveEncrypted ==> s.ignorePerms) ==> n == s)
            && (s.fsWatcherDelayS <= 0.0 ==> !n.fsWatcherEnabled && n.fsWatcherDelayS == 10.0)
            && (s.fsWatcherDelayS > 0.0 ==> n.fsWatcherEnabled == s.fsWatcherEnabled)
            && (typ != ReceiveEncrypted ==> n.ignorePerms == s.ignorePerms)
            && Nearest(s.rescanIntervalS, 0, 31536000, n.rescanIntervalS)
            && Nearest(s.cleanupIntervalS, 0, 31536000, n.cleanupIntervalS)
            && (if s.maxConcurrentWrites <= 0 then n.maxConcurrentWrites == 16
                else Nearest(s.maxConcurrentWrites, 1, 256, n.maxConcurrentWrites))
            && n.markerName == (if s.markerName == [] then [46, 115, 116, 102, 111, 108, 100, 101, 114] else s.markerName)
  {}

  predicate Sensible(s: Settings) {
    && 0 <= s.rescanIntervalS <= 31536000 && 0 <= s.cleanupIntervalS <= 31536000
    && s.fsWatcherDelayS >= 0.01 && s.markerName != [] && 1 <= s.maxConcurrentWrites <= 256
  }

  /** `y` is the number from `lo` to `hi` that is nearest to `x`. */
  ghost predicate Nearest(x: int, lo: int, hi: int, y: int) {
    lo <= y <= hi && forall z | lo <= z <= hi :: Distance(x, y) <= Distance(x, z)
  }

  function Distance(x: int, y: int): nat { if x <= y then y - x else x - y }

  lemma NormalizedFixed(s: Settings, typ: FolderType)
    ensures Normalized(Normalized(s, typ), typ) == Normalized(s, typ)
  {}

  lemma PreparedFolderGood(f: Folder, myID: DeviceID, existing: map<DeviceID, bool>)
    requires f.id != [] && f.path != [] && (myID == EMPTY_ID || myID in existing)
    ensures GoodFolder(PreparedFolder(f, myID, existing), myID, existing)
  {
    NormalizedFixed(f.settings, f.typ);
    FolderDevicesGood(f.devices, f.typ, myID, existing);
  }

  lemma PreparesDevicesSame(ds: seq<Device>, fs: seq<Folder>, ps: seq<Device>, myID: DeviceID)
    requires GoodDeviceList(ds, myID) && PreparesDevices(ds, fs, ps)
    ensures GoodDeviceList(ps, myID) && Existing(ps) == Existing(ds)
  {
    SameExisting(ps, ds);
    forall d | d in ps ensures d.id != EMPTY_ID {
      var i :| 0 <= i < |ps| && ps[i] == d;
      assert ds[i] in ds;
    }
    forall i, j | 0 <= i < j < |ps| ensures Less(DeviceKey(ps[i]), DeviceKey(ps[j])) {
      assert Less(DeviceKey(ds[i]), DeviceKey(ds[j]));
    }
    if myID != EMPTY_ID {
      var me :| me in ds && DeviceKey(me) == myID;
      var i :| 0 <= i < |ds| && ds[i] == me;
      assert ps[i] in ps && DeviceKey(ps[i]) == myID;
    }
  }

  lemma PreparesDevicesGood(ds: seq<Device>, fs: seq<Folder>, gs: seq<Folder>, ps: seq<Device>, d: Device)
    requires PreparesDevices(ds, fs, ps) && d in ps && forall f :: f in gs <==> f in fs
    ensures GoodDevice(d, SharedWith(gs, d.id))
  {
    var i :| 0 <= i < |ps| && ps[i] == d;
    assert PreparesDevice(ds[i], SharedWith(fs, ds[i].id), ps[i]);
    assert SharedWith(fs, ds[i].id) == SharedWith(gs, ds[i].id);
  }

  /** Preparation succeeds exactly when the folders are acceptable, and then delivers all it
      promises. */
  lemma PrepareDelivers(c: Configuration, myID: DeviceID, r: Result<Configuration>)
    requires Prepares(c, myID, r)
    ensures r.Ok? <==> Acceptable(c.folders, {})
    ensures r.Ok? ==> Prepared(r.value, myID)
  {
    var ds := DeviceList(c.devices, myID);
    var existing := Existing(ds);
    DeviceListGood(c.devices, myID);
    FoldersFromFacts(c.folders, {}, myID, existing);
    ExistingFacts(ds, myID);
    if r.Ok? {
      var fs := FoldersFrom(c.folders, {}, myID, existing).value;
      var ps := r.value.devices;
      PreparedFoldersGood(c.folders, fs, myID, existing);
      PreparesDevicesSame(ds, fs, ps, myID);
      forall d | d in ps ensures GoodDevice(d, SharedWith(r.value.folders, d.id)) {
        PreparesDevicesGood(ds, fs, r.value.folders, ps, d);
      }
      forall d | d in r.value.ignoredDevices ensures !HasKey(DeviceKey, ps, d.id) {
        FilterMember(NotConfigured(existing), c.ignoredDevices, d);
        ExistingFacts(ps, d.id);
      }
    }
  }

  /** A plain folder is shared with an untrusted device only if there is a password for it. */
  ghost predicate NoTrustingShares(c: Configuration) {
    forall f, fd, d | f in c.folders && fd in f.devices && d in c.devices && d.id == fd.id ::
      d.untrusted ==> fd.password != [] || f.typ == ReceiveEncrypted
  }

  /** The map has each device's own flag. */
  lemma {:induction false} ExistingFlags(ds: seq<Device>, d: Device)
    requires DistinctBy(DeviceKey, ds) && d in ds
    ensures d.id in Existing(ds) && Existing(ds)[d.id] == d.untrusted
  {
    var n := |ds| - 1;
    if d != ds[n] {
      var i :| 0 <= i < n && ds[i] == d;
      assert ds[..n][i] == d && DeviceKey(ds[i]) != DeviceKey(ds[n]);
      ExistingFlags(ds[..n], d);
    }
  }

  /** Security of every outcome, in the devices' own settings. */
  lemma PreparedTrust(c: Configuration, myID: DeviceID)
    requires Prepared(c, myID)
    ensures NoTrustingShares(c)
  {
    AscendingSorted(DeviceKey, c.devices);
    forall f, fd, d | f in c.folders && fd in f.devices && d in c.devices && d.id == fd.id
      ensures d.untrusted ==> fd.password != [] || f.typ == ReceiveEncrypted
    {
      ExistingFlags(c.devices, d);
      assert GoodFolder(f, myID, Existing(c.devices));
      assert MayShare(f.typ, Existing(c.devices), fd);
    }
  }

  // ---------------------------------------------------------------- preparing what is prepared

  /** The folders of a prepared configuration are left alone. */
  lemma FoldersFixed(c: Configuration, myID: DeviceID)
    requires Prepared(c, myID)
    ensures FoldersFrom(c.folders, {}, myID, Existing(c.devices)) == Ok(c.folders)
  {
    var existing := Existing(c.devices);
    AscendingSorted(FolderKey, c.folders);
    FoldersFromFacts(c.folders, {}, myID, existing);
    assert Acceptable(c.folders, {}) by {
      assert forall i | 0 <= i < |c.folders| :: c.folders[i] in c.folders;
    }
    var fs := FoldersFrom(c.folders, {}, myID, existing).value;
    forall i | 0 <= i < |fs| ensures fs[i] == c.folders[i] {
      assert c.folders[i] in c.folders;
      FolderDevicesFixed(c.folders[i].devices, c.folders[i].typ, myID, existing);
    }
    assert fs == c.folders;
  }

  /** So only the devices' ignored folders are open. */
  lemma PreparesPrepared(c: Configuration, myID: DeviceID, r: Result<Configuration>)
    requires Prepared(c, myID)
    ensures Prepares(c, myID, r) <==>
            r.Ok? && r.value == c.(devices := r.value.devices) && PreparesDevices(c.devices, c.folders, r.value.devices)
  {
    var existing := Existing(c.devices);
    DeviceListFixed(c.devices, myID);
    FoldersFixed(c, myID);
    AscendingSorted(FolderKey, c.folders);
    forall d | d in c.ignoredDevices ensures NotConfigured(existing)(d) { ExistingFacts(c.devices, d.id); }
    FilterFixed(NotConfigured(existing), c.ignoredDevices);
  }

  /** The same device, with the same ignored folders in some order. */
  ghost predicate SameDevice(d: Device, p: Device) {
    && p == d.(ignoredFolders := p.ignoredFolders)
    && DistinctBy(ObservedKey, p.ignoredFolders)
    && forall f :: f in p.ignoredFolders <==> f in d.ignoredFolders
  }

  lemma PreparesGood(d: Device, shared: set<Str>, p: Device)
    requires GoodDevice(d, shared) && PreparesDevice(d, shared, p)
    ensures SameDevice(d, p) && (NoTies(d.ignoredFolders) ==> p == d)
  {
    GoodDeviceListed(d, shared);
    if NoTies(d.ignoredFolders) {
      ListedOnce(d.ignoredFolders, p.ignoredFolders);
    }
  }

  /** Repeating preparation leaves everything unchanged, whatever the order of the Go maps: device
      IDs and settings, folders, memberships, ignored devices and each device's set of ignored
      folders. */
  lemma PreparedStays(c: Configuration, myID: DeviceID, r: Result<Configuration>)
    requires Prepared(c, myID) && Prepares(c, myID, r)
    ensures r.Ok? && r.value == c.(devices := r.value.devices) && |r.value.devices| == |c.devices|
    ensures forall i | 0 <= i < |c.devices| :: SameDevice(c.devices[i], r.value.devices[i])
  {
    PreparesPrepared(c, myID, r);
    forall i | 0 <= i < |c.devices| ensures SameDevice(c.devices[i], r.value.devices[i]) {
      assert c.devices[i] in c.devices;
      PreparesGood(c.devices[i], SharedWith(c.folders, c.devices[i].id), r.value.devices[i]);
    }
  }

  ghost predicate NoDeviceTies(c: Configuration) { forall d | d in c.devices :: NoTies(d.ignoredFolders) }

  /** A prepared configuration is sure to be a fixed point exactly if no device has two ignored
      folders with the same time. */
  lemma PreparedFixedIff(c: Configuration, myID: DeviceID)
    requires Prepared(c, myID)
    ensures Prepares(c, myID, Ok(c))
    ensures (forall r | Prepares(c, myID, r) :: r == Ok(c)) <==> NoDeviceTies(c)
  {
    PreparesPrepared(c, myID, Ok(c));
    forall i | 0 <= i < |c.devices| ensures PreparesDevice(c.devices[i], SharedWith(c.folders, c.devices[i].id), c.devices[i]) {
      assert c.devices[i] in c.devices;
      GoodDeviceListed(c.devices[i], SharedWith(c.folders, c.devices[i].id));
    }
    if NoDeviceTies(c) {
      forall r | Prepares(c, myID, r) ensures r == Ok(c) {
        PreparesPrepared(c, myID, r);
        forall i | 0 <= i < |c.devices| ensures r.value.devices[i] == c.devices[i] {
          assert c.devices[i] in c.devices;
          PreparesGood(c.devices[i], SharedWith(c.folders, c.devices[i].id), r.value.devices[i]);
        }
        assert r.value.devices == c.devices;
      }
    } else {
      var r := PreparedOtherwise(c, myID);
    }
  }

  lemma PreparedOtherwise(c: Configuration, myID: DeviceID) returns (r: Result<Configuration>)
    requires Prepared(c, myID) && !NoDeviceTies(c)
    ensures Prepares(c, myID, r) && r != Ok(c)
  {
    var d :| d in c.devices && !NoTies(d.ignoredFolders);
    var k :| 0 <= k < |c.devices| && c.devices[k] == d;
    var shared := SharedWith(c.folders, d.id);
    GoodDeviceListed(d, shared);
    var l := ListedTwice(d.ignoredFolders, Ignored(d, shared));
    var ps := c.devices[k := d.(ignoredFolders := l)];
    forall i | 0 <= i < |c.devices| ensures PreparesDevice(c.devices[i], SharedWith(c.folders, c.devices[i].id), ps[i]) {
      assert c.devices[i] in c.devices;
      GoodDeviceListed(c.devices[i], SharedWith(c.folders, c.devices[i].id));
    }
    r := Ok(c.(devices := ps));
    PreparesPrepared(c, myID, r);
    assert ps[k] != c.devices[k];
  }

  /** No device of the configuration has two newest, unshared entries with the same time. */
  ghost predicate TieFreeInput(c: Configuration, myID: DeviceID)
    requires Acceptable(c.folders, {})
  {
    var ds := DeviceList(c.devices, myID);
    FoldersFromFacts(c.folders, {}, myID, Existing(ds));
    var fs := FoldersFrom(c.folders, {}, myID, Existing(ds)).value;
    forall d | d in ds :: TieFree(Ignored(d, SharedWith(fs, d.id)))
  }

  lemma TiesKept(c: Configuration, myID: DeviceID, r: Result<Configuration>)
    requires Acceptable(c.folders, {}) && Prepares(c, myID, r) && r.Ok?
    ensures NoDeviceTies(r.value) <==> TieFreeInput(c, myID)
  {
    var ds := DeviceList(c.devices, myID);
    FoldersFromFacts(c.folders, {}, myID, Existing(ds));
    var fs, ps := FoldersFrom(c.folders, {}, myID, Existing(ds)).value, r.value.devices;
    forall i | 0 <= i < |ds| ensures NoTies(ps[i].ignoredFolders) <==> TieFree(Ignored(ds[i], SharedWith(fs, ds[i].id))) {
      IgnoredKeyed(ds[i], SharedWith(fs, ds[i].id));
      NoTiesIff(ps[i].ignoredFolders, Ignored(ds[i], SharedWith(fs, ds[i].id)));
    }
    forall d | d in ds && NoDeviceTies(r.value) ensures TieFree(Ignored(d, SharedWith(fs, d.id))) {
      var i :| 0 <= i < |ds| && ds[i] == d;
      assert ps[i] in ps;
    }
    forall p | p in ps && TieFreeInput(c, myID) ensures NoTies(p.ignoredFolders) {
      var i :| 0 <= i < |ps| && ps[i] == p;
      assert ds[i] in ds;
    }
  }

  /** Preparing twice is sure to be preparing once exactly if there are no ties in the input. */
  lemma PrepareIdempotentIff(c: Configuration, myID: DeviceID, r: Result<Configuration>)
    requires Acceptable(c.folders, {}) && Prepares(c, myID, r)
    ensures r.Ok?
    ensures (forall r' | Prepares(r.value, myID, r') :: r' == r) <==> TieFreeInput(c, myID)
  {
    PrepareDelivers(c, myID, r);
    TiesKept(c, myID, r);
    PreparedFixedIff(r.value, myID);
  }

  /** Two folders ignored at the same time: preparation may turn them around. */
  lemma TieExample()
    ensures var f, g := ObservedFolder([97], 0), ObservedFolder([98], 0);
            var d := Device([1], false, false, false, [f, g], 0, 0);
            var c := Configuration([d], [], [], Options(0, 0, false));
            Prepared(c, EMPTY_ID) && Prepares(c, EMPTY_ID, Ok(c.(devices := [d.(ignoredFolders := [g, f])])))
  {
    var f, g := ObservedFolder([97], 0), ObservedFolder([98], 0);
    var d := Device([1], false, false, false, [f, g], 0, 0);
    var c := Configuration([d], [], [], Options(0, 0, false));
    assert |EMPTY_ID| == 32 && d.id != EMPTY_ID;
    assert c.devices[0] == d && GoodDevice(d, SharedWith([], d.id));
    assert Prepared(c, EMPTY_ID);
    PreparesPrepared(c, EMPTY_ID, Ok(c.(devices := [d.(ignoredFolders := [g, f])])));
    assert [f, g][..1] == [f] && [f][..0] == [];
    assert Newest([f]) == map[f.id := f];
    assert Newest([f, g]) == map[f.id := f, g.id := g];
    assert Ignored(d, SharedWith([], d.id)) == map[f.id := f, g.id := g];
  }
}
