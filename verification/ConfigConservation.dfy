/** What configuration preparation does not lose (lib/config/config.go:302-407, 520-602,
    deviceconfiguration.go:53-120): the counterpart of the promises in module Config. */
module ConfigConservation {
  import opened Bytes
  import opened Sorting
  import opened ConfigLists
  import opened Config

  /** Removal by ID: whoever is dropped is empty, or its ID is there already. */
  lemma SwapDropDevices(s: seq<Device>, id: DeviceID)
    requires id != EMPTY_ID
    ensures HasKey(DeviceKey, SwapDrop(SeenOrEmpty, s, 0), id) <==> HasKey(DeviceKey, s, id)
  {
    var r := SwapDrop(SeenOrEmpty, s, 0);
    SwapDropFacts(SeenOrEmpty, s, 0);
    if HasKey(DeviceKey, s, id) {
      var x :| x in s && DeviceKey(x) == id;
      assert Accounted(SeenOrEmpty, r, x);
      if x !in r {
        var k :| 0 <= k <= |r| && SeenOrEmpty(x, r[..k]);
        var y :| y in r[..k] && DeviceKey(y) == id;
        assert y in r;
      }
    }
  }

  /** The device that is added for ourselves: trusted, unlimited, and without further settings. */
  function Ourselves(myID: DeviceID): Device { Device(myID, false, false, false, [], 0, 0) }

  /** The devices are those that were configured, and ourselves. */
  lemma DeviceListKeeps(ds: seq<Device>, myID: DeviceID, id: DeviceID)
    requires id != EMPTY_ID
    ensures HasKey(DeviceKey, DeviceList(ds, myID), id) <==> HasKey(DeviceKey, ds, id) || id == myID
    ensures forall d | d in DeviceList(ds, myID) :: d in ds || (d == Ourselves(myID) && !HasKey(DeviceKey, ds, myID))
  {
    var w := WithMyDevice(ds, myID);
    var r := SwapDrop(SeenOrEmpty, w, 0);
    SwapDropFacts(SeenOrEmpty, w, 0);
    SwapDropDevices(w, id);
    SortPermutes(KeyOrder(DeviceKey), r);
    SameKeys(DeviceKey, DeviceList(ds, myID), r, id);
    WithMyDeviceKeys(ds, myID, id);
  }

  lemma SameKeys<T>(key: T -> Str, s: seq<T>, t: seq<T>, id: Str)
    requires forall x :: x in s <==> x in t
    ensures HasKey(key, s, id) <==> HasKey(key, t, id)
  {}

  lemma WithMyDeviceKeys(ds: seq<Device>, myID: DeviceID, id: DeviceID)
    requires id != EMPTY_ID
    ensures HasKey(DeviceKey, WithMyDevice(ds, myID), id) <==> HasKey(DeviceKey, ds, id) || id == myID
    ensures forall d | d in WithMyDevice(ds, myID) :: d in ds || (d == Ourselves(myID) && !HasKey(DeviceKey, ds, myID))
  {
    var w := WithMyDevice(ds, myID);
    if w != ds {
      assert w[|w| - 1] in w && DeviceKey(w[|w| - 1]) == myID;
      if HasKey(DeviceKey, ds, id) {
        var x :| x in ds && DeviceKey(x) == id;
        assert x in w;
      }
    }
  }

  lemma UniqueKeeps(s: seq<FolderDevice>, id: DeviceID)
    requires HasKey(FolderDeviceKey, s, id)
    ensures HasKey(FolderDeviceKey, SwapDrop(SeenDevice, s, 0), id)
  {
    var r := SwapDrop(SeenDevice, s, 0);
    SwapDropFacts(SeenDevice, s, 0);
    var x :| x in s && FolderDeviceKey(x) == id;
    assert Accounted(SeenDevice, r, x);
    if x !in r {
      var k :| 0 <= k <= |r| && SeenDevice(x, r[..k]);
      var y :| y in r[..k] && FolderDeviceKey(y) == id;
      assert y in r;
    }
  }

  lemma KnownKeeps(s: seq<FolderDevice>, existing: map<DeviceID, bool>, x: FolderDevice)
    requires x in s && x.id in existing
    ensures x in SwapDrop(Unknown(existing), s, 0)
  {
    SwapDropFacts(Unknown(existing), s, 0);
    assert Accounted(Unknown(existing), SwapDrop(Unknown(existing), s, 0), x);
  }

  /** A folder gets shared with nobody new but ourselves. */
  lemma FolderDevicesPart(ds: seq<FolderDevice>, typ: FolderType, myID: DeviceID, existing: map<DeviceID, bool>, d: FolderDevice)
    requires d in FolderDevices(ds, typ, myID, existing)
    ensures d in ds || d == FolderDevice(myID, EMPTY_ID, [])
  {
    var known := SwapDrop(Unknown(existing), ds, 0);
    var unique := SwapDrop(SeenDevice, known, 0);
    var w := WithDevice(unique, myID);
    var f := Filter(Sharing(typ, existing), w);
    SortPermutes(KeyOrder(FolderDeviceKey), f);
    FilterMember(Sharing(typ, existing), w, d);
    assert d in unique || d == FolderDevice(myID, EMPTY_ID, []);
    SwapDropFacts(Unknown(existing), ds, 0);
    SwapDropFacts(SeenDevice, known, 0);
  }

  /** A folder stays shared with a configured device if each of its entries allows that. */
  lemma FolderDevicesKeep(ds: seq<FolderDevice>, typ: FolderType, myID: DeviceID, existing: map<DeviceID, bool>, id: DeviceID)
    requires HasKey(FolderDeviceKey, ds, id) && id in existing
    requires forall d | d in ds && d.id == id :: MayShare(typ, existing, d)
    ensures HasKey(FolderDeviceKey, FolderDevices(ds, typ, myID, existing), id)
  {
    var known := SwapDrop(Unknown(existing), ds, 0);
    var unique := SwapDrop(SeenDevice, known, 0);
    var w := WithDevice(unique, myID);
    var f := Filter(Sharing(typ, existing), w);
    var x :| x in ds && FolderDeviceKey(x) == id;
    KnownKeeps(ds, existing, x);
    UniqueKeeps(known, id);
    var y :| y in unique && FolderDeviceKey(y) == id;
    SwapDropPart(Unknown(existing), ds, SeenDevice, y);
    assert y in w;
    FilterMember(Sharing(typ, existing), w, y);
    SortPermutes(KeyOrder(FolderDeviceKey), f);
    assert y in FolderDevices(ds, typ, myID, existing);
  }

  /** The first entry of a list stays the first, and so is the one kept for its device. */
  lemma FirstStays(d: FolderDevice, rest: seq<FolderDevice>, existing: map<DeviceID, bool>)
    requires d.id in existing
    ensures var unique := SwapDrop(SeenDevice, SwapDrop(Unknown(existing), [d] + rest, 0), 0);
            unique != [] && unique[0] == d && DistinctBy(FolderDeviceKey, unique)
  {
    var known := SwapDrop(Unknown(existing), [d] + rest, 0);
    assert known == SwapDrop(Unknown(existing), [d] + rest, 1);
    SwapDropFacts(Unknown(existing), [d] + rest, 1);
    assert known[0] == known[..1][0] == d;
    var unique := SwapDrop(SeenDevice, known, 0);
    assert unique == SwapDrop(SeenDevice, known, 1);
    SwapDropFacts(SeenDevice, known, 1);
    assert unique[0] == unique[..1][0] == d;
    CleanMeansDistinct(unique);
  }

  lemma FirstDecides(d: FolderDevice, rest: seq<FolderDevice>, typ: FolderType, myID: DeviceID, existing: map<DeviceID, bool>)
    requires d.id in existing && !MayShare(typ, existing, d)
    ensures !HasKey(FolderDeviceKey, FolderDevices([d] + rest, typ, myID, existing), d.id)
  {
    var unique := SwapDrop(SeenDevice, SwapDrop(Unknown(existing), [d] + rest, 0), 0);
    var w := WithDevice(unique, myID);
    FirstStays(d, rest, existing);
    assert unique[0] in unique;
    SortPermutes(KeyOrder(FolderDeviceKey), Filter(Sharing(typ, existing), w));
    forall x | x in FolderDevices([d] + rest, typ, myID, existing) ensures FolderDeviceKey(x) != d.id {
      FilterMember(Sharing(typ, existing), w, x);
      OnlyOne(unique, x);
    }
  }

  lemma OnlyOne(s: seq<FolderDevice>, x: FolderDevice)
    requires s != [] && DistinctBy(FolderDeviceKey, s)
    ensures x in s && FolderDeviceKey(x) == FolderDeviceKey(s[0]) ==> x == s[0]
  {}

  /** Which entry is kept for a device depends on their order, so the folder is sure to stay shared
      with it, however the entries are ordered, exactly if each of them allows it. */
  lemma ShareKeptIff(ds: seq<FolderDevice>, typ: FolderType, myID: DeviceID, existing: map<DeviceID, bool>, id: DeviceID)
    requires HasKey(FolderDeviceKey, ds, id) && id in existing
    ensures (forall ps | multiset(ps) == multiset(ds) :: HasKey(FolderDeviceKey, FolderDevices(ps, typ, myID, existing), id))
            <==> forall d | d in ds && d.id == id :: MayShare(typ, existing, d)
  {
    if forall d | d in ds && d.id == id :: MayShare(typ, existing, d) {
      forall ps | multiset(ps) == multiset(ds) ensures HasKey(FolderDeviceKey, FolderDevices(ps, typ, myID, existing), id) {
        SameElements(ps, ds);
        SameKeys(FolderDeviceKey, ps, ds, id);
        FolderDevicesKeep(ps, typ, myID, existing, id);
      }
    } else {
      var d :| d in ds && d.id == id && !MayShare(typ, existing, d);
      var rest := MoveToFront(ds, d);
      FirstDecides(d, rest, typ, myID, existing);
    }
  }

  lemma MoveToFront<T>(s: seq<T>, x: T) returns (rest: seq<T>)
    requires x in s
    ensures multiset([x] + rest) == multiset(s)
  {
    var i :| 0 <= i < |s| && s[i] == x;
    rest := s[..i] + s[i + 1..];
    assert s == s[..i] + [x] + s[i + 1..];
  }

  lemma SwapDropPart<T>(bad: (T, seq<T>) -> bool, s: seq<T>, bad': (T, seq<T>) -> bool, y: T)
    requires y in SwapDrop(bad', SwapDrop(bad, s, 0), 0)
    ensures y in s
  {
    SwapDropFacts(bad, s, 0);
    SwapDropFacts(bad', SwapDrop(bad, s, 0), 0);
  }

  /** A device's ignored folders after preparation: the newest entries of those not shared. */
  lemma IgnoredFoldersKept(d: Device, shared: set<Str>, p: Device, f: ObservedFolder)
    requires PreparesDevice(d, shared, p)
    ensures f in p.ignoredFolders <==>
            f in d.ignoredFolders && f.id !in shared && forall g | g in d.ignoredFolders && g.id == f.id :: g.time <= f.time
  {
    NewestFacts(d.ignoredFolders, f.id);
    if f in d.ignoredFolders {
      assert HasKey(ObservedKey, d.ignoredFolders, f.id);
    }
  }

  lemma FoldersPrepared(c: Configuration, myID: DeviceID, r: Result<Configuration>)
    requires Prepares(c, myID, r) && r.Ok?
    ensures forall g :: g in r.value.folders <==> exists f | f in c.folders :: g == PreparedFolder(f, myID, Existing(r.value.devices))
  {
    var ds := DeviceList(c.devices, myID);
    var fs := FoldersFrom(c.folders, {}, myID, Existing(ds)).value;
    SameExisting(r.value.devices, ds);
    FoldersKept(c.folders, fs, myID, Existing(ds));
    SortPermutes(KeyOrder(FolderKey), fs);
  }

  /** Preparation loses no configured device and no folder, and drops exactly the ignored devices
      that are configured. */
  lemma PrepareKeeps(c: Configuration, myID: DeviceID, r: Result<Configuration>, id: DeviceID)
    requires Prepares(c, myID, r) && r.Ok? && id != EMPTY_ID
    ensures var p := r.value;
            && (HasKey(DeviceKey, p.devices, id) <==> HasKey(DeviceKey, c.devices, id) || id == myID)
            && (forall g :: g in p.folders <==> exists f | f in c.folders ::
                 g == PreparedFolder(f, myID, Existing(p.devices)) && g.id == f.id && g.path == f.path && g.typ == f.typ)
            && (forall d :: d in p.ignoredDevices <==> d in c.ignoredDevices && !HasKey(DeviceKey, p.devices, d.id))
            && p.options == c.options
  {
    var p := r.value;
    var ds := DeviceList(c.devices, myID);
    var existing := Existing(ds);
    var fs := FoldersFrom(c.folders, {}, myID, existing).value;
    DeviceListKeeps(c.devices, myID, id);
    SameDeviceKeys(ds, fs, p.devices, id);
    FoldersPrepared(c, myID, r);
    SameExisting(p.devices, ds);
    forall d ensures d in p.ignoredDevices <==> d in c.ignoredDevices && !HasKey(DeviceKey, p.devices, d.id) {
      FilterMember(NotConfigured(existing), c.ignoredDevices, d);
      ExistingFacts(p.devices, d.id);
    }
  }

  lemma FoldersKept(folders: seq<Folder>, fs: seq<Folder>, myID: DeviceID, existing: map<DeviceID, bool>)
    requires FoldersFrom(folders, {}, myID, existing) == Ok(fs)
    ensures forall g :: g in fs <==> exists f | f in folders :: g == PreparedFolder(f, myID, existing)
  {
    FoldersFromFacts(folders, {}, myID, existing);
    forall g | g in fs ensures exists f | f in folders :: g == PreparedFolder(f, myID, existing) {
      var i :| 0 <= i < |fs| && fs[i] == g;
      assert folders[i] in folders;
    }
    forall f | f in folders ensures PreparedFolder(f, myID, existing) in fs {
      var i :| 0 <= i < |folders| && folders[i] == f;
      assert fs[i] in fs;
    }
  }

  lemma SameDeviceKeys(ds: seq<Device>, fs: seq<Folder>, ps: seq<Device>, id: DeviceID)
    requires PreparesDevices(ds, fs, ps)
    ensures HasKey(DeviceKey, ps, id) <==> HasKey(DeviceKey, ds, id)
  {
    if HasKey(DeviceKey, ds, id) {
      var x :| x in ds && DeviceKey(x) == id;
      var i :| 0 <= i < |ds| && ds[i] == x;
      assert ps[i] in ps && DeviceKey(ps[i]) == id;
    }
    if HasKey(DeviceKey, ps, id) {
      var x :| x in ps && DeviceKey(x) == id;
      var i :| 0 <= i < |ps| && ps[i] == x;
      assert ds[i] in ds && DeviceKey(ds[i]) == id;
    }
  }

  // ---------------------------------------------------------------- in the devices' own settings

  /** A device's settings stay, except that an untrusted one is neither introducer nor accepts
      folders; the one added for ourselves is trusted and unlimited. */
  lemma DeviceSettingsKept(c: Configuration, myID: DeviceID, r: Result<Configuration>, p: Device) returns (d: Device)
    requires Prepares(c, myID, r) && r.Ok? && p in r.value.devices
    ensures d in c.devices || (d == Ourselves(myID) && !HasKey(DeviceKey, c.devices, myID))
    ensures p.id == d.id && p.untrusted == d.untrusted
    ensures p.maxSendKbps == d.maxSendKbps && p.maxRecvKbps == d.maxRecvKbps
    ensures p.introducer == (d.introducer && !d.untrusted)
    ensures p.autoAcceptFolders == (d.autoAcceptFolders && !d.untrusted)
  {
    var ds := DeviceList(c.devices, myID);
    var fs := FoldersFrom(c.folders, {}, myID, Existing(ds)).value;
    var i :| 0 <= i < |ds| && r.value.devices[i] == p;
    d := ds[i];
    assert PreparesDevice(d, SharedWith(fs, d.id), p);
    DeviceListGood(c.devices, myID);
    assert d in ds && d.id != EMPTY_ID;
    DeviceListKeeps(c.devices, myID, d.id);
  }

  /** A folder stays shared with a configured device that is trusted, or for which there is a
      password, or if it is stored encrypted. */
  lemma SharesKept(c: Configuration, myID: DeviceID, r: Result<Configuration>, f: Folder, d: Device)
    requires Prepares(c, myID, r) && r.Ok? && f in c.folders && d in r.value.devices
    requires HasKey(FolderDeviceKey, f.devices, d.id)
    requires !d.untrusted || f.typ == ReceiveEncrypted || forall fd | fd in f.devices && fd.id == d.id :: fd.password != []
    ensures exists g | g in r.value.folders :: g.id == f.id && HasKey(FolderDeviceKey, g.devices, d.id)
  {
    var existing := Existing(r.value.devices);
    var g := PreparedFolder(f, myID, existing);
    assert HasKey(FolderDeviceKey, g.devices, d.id) by {
      OwnFlag(c, myID, r, d);
      FolderDevicesKeep(f.devices, f.typ, myID, existing, d.id);
    }
    assert g in r.value.folders by {
      FoldersPrepared(c, myID, r);
    }
  }

  lemma OwnFlag(c: Configuration, myID: DeviceID, r: Result<Configuration>, d: Device)
    requires Prepares(c, myID, r) && r.Ok? && d in r.value.devices
    ensures var existing := Existing(r.value.devices); d.id in existing && existing[d.id] == d.untrusted
  {
    PrepareDelivers(c, myID, r);
    AscendingSorted(DeviceKey, r.value.devices);
    ExistingFlags(r.value.devices, d);
  }

  /** Every folder includes ourselves, unless we are configured as untrusted. */
  lemma OurselvesShared(c: Configuration, myID: DeviceID, r: Result<Configuration>, f: Folder)
    requires Prepares(c, myID, r) && r.Ok? && f in r.value.folders && myID != EMPTY_ID
    requires forall d | d in c.devices && d.id == myID :: !d.untrusted
    ensures HasKey(FolderDeviceKey, f.devices, myID)
  {
    var ps := r.value.devices;
    PrepareDelivers(c, myID, r);
    AscendingSorted(DeviceKey, ps);
    var me :| me in ps && DeviceKey(me) == myID;
    var d := DeviceSettingsKept(c, myID, r, me);
    ExistingFlags(ps, me);
    assert GoodFolder(f, myID, Existing(ps));
  }
}
