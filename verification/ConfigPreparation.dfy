/** The loops of configuration preparation as they run (lib/config/config.go:302-407, 520-602,
    deviceconfiguration.go:53-120), proved against module Config. */
module ConfigPreparation {
  import opened Bytes
  import opened Sorting
  import opened ConfigLists
  import opened Config

  /** config.go:537-550 */
  method EnsureExistingDevices(ds: seq<FolderDevice>, existing: map<DeviceID, bool>) returns (r: seq<FolderDevice>)
    ensures r == SwapDrop(Unknown(existing), ds, 0)
  {
    r := ds;
    var i := 0;
    while i < |r|
      invariant 0 <= i <= |r|
      invariant SwapDrop(Unknown(existing), r, i) == SwapDrop(Unknown(existing), ds, 0)
      decreases |r| - i
    {
      if r[i].id !in existing {
        r := r[i := r[|r| - 1]][..|r| - 1];
      } else {
        i := i + 1;
      }
    }
  }

  /** config.go:552-568: the set of IDs seen is the set of IDs kept. */
  method EnsureNoDuplicateFolderDevices(ds: seq<FolderDevice>) returns (r: seq<FolderDevice>)
    ensures r == SwapDrop(SeenDevice, ds, 0)
  {
    r := ds;
    var i := 0;
    var seen: set<DeviceID> := {};
    while i < |r|
      invariant 0 <= i <= |r|
      invariant forall id :: id in seen <==> HasKey(FolderDeviceKey, r[..i], id)
      invariant SwapDrop(SeenDevice, r, i) == SwapDrop(SeenDevice, ds, 0)
      decreases |r| - i
    {
      var id := r[i].id;
      if id in seen {
        var r' := r[i := r[|r| - 1]][..|r| - 1];
        assert r'[..i] == r[..i];
        r := r';
      } else {
        KeysSnoc(FolderDeviceKey, r, i);
        seen := seen + {id};
        i := i + 1;
      }
    }
  }

  /** config.go:570-586 */
  method EnsureNoDuplicateOrEmptyIDDevices(ds: seq<Device>) returns (r: seq<Device>)
    ensures r == SwapDrop(SeenOrEmpty, ds, 0)
  {
    r := ds;
    var i := 0;
    var seen: set<DeviceID> := {};
    while i < |r|
      invariant 0 <= i <= |r|
      invariant forall id :: id in seen <==> HasKey(DeviceKey, r[..i], id)
      invariant SwapDrop(SeenOrEmpty, r, i) == SwapDrop(SeenOrEmpty, ds, 0)
      decreases |r| - i
    {
      var id := r[i].id;
      if id in seen || id == EMPTY_ID {
        var r' := r[i := r[|r| - 1]][..|r| - 1];
        assert r'[..i] == r[..i];
        r := r';
      } else {
        KeysSnoc(DeviceKey, r, i);
        seen := seen + {id};
        i := i + 1;
      }
    }
  }

  lemma KeysSnoc<T>(key: T -> Str, s: seq<T>, i: nat)
    requires i < |s|
    ensures forall k :: HasKey(key, s[..i + 1], k) <==> HasKey(key, s[..i], k) || k == key(s[i])
  {
    assert s[..i + 1] == s[..i] + [s[i]];
    assert s[i] in s[..i + 1];
    forall k | HasKey(key, s[..i], k) ensures HasKey(key, s[..i + 1], k) {
      var x :| x in s[..i] && key(x) == k;
      assert x in s[..i + 1];
    }
    forall k | HasKey(key, s[..i + 1], k) ensures HasKey(key, s[..i], k) || k == key(s[i]) {
      var x :| x in s[..i + 1] && key(x) == k;
      assert x in s[..i] || x == s[i];
    }
  }

  /** config.go:588-602. Every device is looked up in the device map, which must know it: the
      lookup result is dereferenced unchecked. */
  method EnsureNoUntrustedTrustingSharing(ds: seq<FolderDevice>, typ: FolderType, existing: map<DeviceID, bool>)
    returns (r: seq<FolderDevice>)
    requires forall d | d in ds :: d.id in existing
    ensures r == Filter(Sharing(typ, existing), ds)
  {
    r := ds;
    var i := 0;
    ghost var keep := Sharing(typ, existing);
    assert ds[..0] + ds == ds;
    while i < |r|
      invariant 0 <= i <= |r|
      invariant forall d | d in r :: d.id in existing
      invariant r[..i] + Filter(keep, r[i..]) == Filter(keep, ds)
      decreases |r| - i
    {
      var dev := r[i];
      FilterAt(keep, r, i);
      assert dev in r;
      if dev.password == [] && typ != ReceiveEncrypted && existing[dev.id] {
        var r' := r[..i] + r[i + 1..];
        assert r'[..i] == r[..i] && r'[i..] == r[i + 1..];
        r := r';
      } else {
        i := i + 1;
      }
    }
    assert r[i..] == [] && r[..i] == r;
  }

  lemma FilterAt<T>(keep: T -> bool, r: seq<T>, i: nat)
    requires i < |r|
    ensures r[..i] + Filter(keep, r[i..]) == (if keep(r[i]) then r[..i + 1] else r[..i]) + Filter(keep, r[i + 1..])
  {
    assert r[i..][0] == r[i] && r[i..][1..] == r[i + 1..];
    assert r[..i + 1] == r[..i] + [r[i]];
  }

  /** folderconfiguration.go:289-302. The unchecked lookup is safe: all devices left are known,
      and so are we. */
  method PrepareFolder(f: Folder, myID: DeviceID, existing: map<DeviceID, bool>) returns (r: Folder)
    requires myID == EMPTY_ID || myID in existing
    ensures r == PreparedFolder(f, myID, existing)
  {
    var ds := EnsureExistingDevices(f.devices, existing);
    ds := EnsureNoDuplicateFolderDevices(ds);
    WithMeFacts(f.devices, myID, existing);
    ds := WithDevice(ds, myID);
    ds := EnsureNoUntrustedTrustingSharing(ds, f.typ, existing);
    ds := Sort(KeyOrder(FolderDeviceKey), ds);
    r := f.(devices := ds, settings := Normalized(f.settings, f.typ));
  }

  /** config.go:358-380 */
  method PrepareFolders(fs: seq<Folder>, myID: DeviceID, existing: map<DeviceID, bool>) returns (r: Result<seq<Folder>>)
    requires myID == EMPTY_ID || myID in existing
    ensures r == FoldersFrom(fs, {}, myID, existing)
  {
    var out, seen := [], {};
    assert fs[0..] == fs;
    PrependNothing(FoldersFrom(fs, {}, myID, existing));
    for i := 0 to |fs|
      invariant FoldersFrom(fs, {}, myID, existing) == Prepend(out, FoldersFrom(fs[i..], seen, myID, existing))
    {
      var f := fs[i];
      assert fs[i..][0] == f && fs[i..][1..] == fs[i + 1..];
      if f.id == [] {
        return Err(FolderIDEmpty);
      }
      if f.path == [] {
        return Err(FolderPathEmpty(f.id));
      }
      if f.id in seen {
        return Err(FolderIDDuplicate(f.id));
      }
      var p := PrepareFolder(f, myID, existing);
      PrependSnoc(out, p, FoldersFrom(fs[i + 1..], seen + {f.id}, myID, existing));
      out, seen := out + [p], seen + {f.id};
    }
    assert out + [] == out;
    return Ok(out);
  }

  lemma PrependNothing(r: Result<seq<Folder>>)
    ensures Prepend([], r) == r
  {
    if r.Ok? { assert [] + r.value == r.value; }
  }

  ghost function Prepend(out: seq<Folder>, r: Result<seq<Folder>>): Result<seq<Folder>> {
    match r
    case Err(e) => Err(e)
    case Ok(rest) => Ok(out + rest)
  }

  lemma PrependSnoc(out: seq<Folder>, f: Folder, r: Result<seq<Folder>>)
    ensures Prepend(out, Prepend([f], r)) == Prepend(out + [f], r)
  {
    if r.Ok? {
      assert out + ([f] + r.value) == (out + [f]) + r.value;
    }
  }

  /** config.go:275-288 */
  method PrepareConfiguration(c: Configuration, myID: DeviceID) returns (r: Result<Configuration>)
    ensures Prepares(c, myID, r)
    ensures r.Ok? ==> NoTrustingShares(r.value)
  {
    var ds := EnsureNoDuplicateOrEmptyIDDevices(WithMyDevice(c.devices, myID));
    ds := Sort(KeyOrder(DeviceKey), ds);
    DeviceListGood(c.devices, myID);
    var existing := Existing(ds);
    ExistingFacts(ds, myID);
    var fs := PrepareFolders(c.folders, myID, existing);
    if fs.Err? {
      return Err(fs.error);
    }
    var devices := PrepareDevices(ds, fs.value);
    var ignored := PrepareIgnoredDevices(c.ignoredDevices, existing);
    r := Ok(Configuration(devices, Sort(KeyOrder(FolderKey), fs.value), ignored, c.options));
    PrepareDelivers(c, myID, r);
    PreparedTrust(r.value, myID);
  }

  /** config.go:388-392 */
  method PrepareDevices(ds: seq<Device>, fs: seq<Folder>) returns (r: seq<Device>)
    ensures PreparesDevices(ds, fs, r)
  {
    r := [];
    for i := 0 to |ds|
      invariant |r| == i
      invariant forall j | 0 <= j < i :: PreparesDevice(ds[j], SharedWith(fs, ds[j].id), r[j])
    {
      var p := PrepareDevice(ds[i], SharedWith(fs, ds[i].id));
      r := r + [p];
    }
  }

  /** deviceconfiguration.go:53-78 */
  method PrepareDevice(d: Device, shared: set<Str>) returns (p: Device)
    ensures PreparesDevice(d, shared, p)
  {
    var m := DeduplicateObservedFoldersToMap(d.ignoredFolders);
    var todo := shared;
    while todo != {}
      invariant todo <= shared && m == Remaining(Newest(d.ignoredFolders), shared - todo)
    {
      var id :| id in todo;
      m := m - {id};
      todo := todo - {id};
    }
    assert shared - todo == shared;
    IgnoredKeyed(d, shared);
    var l := SortedObservedFolderSlice(m);
    p := d.(ignoredFolders := l);
    if p.untrusted {
      if p.introducer {
        p := p.(introducer := false);
      }
      if p.autoAcceptFolders {
        p := p.(autoAcceptFolders := false);
      }
    }
  }

  /** deviceconfiguration.go:111-120 */
  method DeduplicateObservedFoldersToMap(l: seq<ObservedFolder>) returns (m: map<Str, ObservedFolder>)
    ensures m == Newest(l)
  {
    m := map[];
    for i := 0 to |l|
      invariant m == Newest(l[..i])
    {
      var f := l[i];
      assert l[..i + 1][..i] == l[..i];
      if f.id !in m || m[f.id].time < f.time {
        m := m[f.id := f];
      }
    }
    assert l[..|l|] == l;
  }

  /** deviceconfiguration.go:100-109: the map is visited in any order. */
  method SortedObservedFolderSlice(m: map<Str, ObservedFolder>) returns (l: seq<ObservedFolder>)
    requires Keyed(m)
    ensures Lists(l, m)
  {
    l := [];
    var todo := m.Keys;
    while todo != {}
      invariant todo <= m.Keys && DistinctBy(ObservedKey, l)
      invariant forall f :: f in l <==> f.id in m && f.id !in todo && m[f.id] == f
    {
      var id :| id in todo;
      assert forall i | 0 <= i < |l| :: l[i] in l;
      l := l + [m[id]];
      todo := todo - {id};
    }
    SortOrdered(ByTime, l);
    SortPermutes(ByTime, l);
    SortDistinctBy(ByTime, ObservedKey, l);
    l := Sort(ByTime, l);
  }

  /** config.go:394-407 */
  method PrepareIgnoredDevices(ds: seq<ObservedDevice>, existing: map<DeviceID, bool>) returns (r: seq<ObservedDevice>)
    ensures r == Filter(NotConfigured(existing), ds)
  {
    r := [];
    for i := 0 to |ds|
      invariant r == Filter(NotConfigured(existing), ds[..i])
    {
      FilterConcat(NotConfigured(existing), ds[..i], [ds[i]]);
      assert ds[..i + 1] == ds[..i] + [ds[i]] && [ds[i]][1..] == [];
      if ds[i].id !in existing {
        r := r + [ds[i]];
      }
    }
    assert ds[..|ds|] == ds;
  }
}
