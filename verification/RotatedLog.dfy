/** The rotating log file (cmd/syncthing/monitor.go:320-394), without I/O errors. Files are lists
    of chunks: what was found at the start counts as one chunk, each write is another. */
module RotatedLog {
  import opened Bytes
  import opened Wrappers

  type Chunks = seq<Str>

  /** The numbered files, newest first, and the base file. */
  datatype Logs = Logs(files: seq<Chunks>, base: Chunks)

  function Flatten(c: Chunks): Str { if c == [] then [] else Flatten(c[..|c| - 1]) + c[|c| - 1] }

  /** All chunks, oldest first. */
  function AllChunks(files: seq<Chunks>): Chunks { if files == [] then [] else AllChunks(files[1..]) + files[0] }

  function Stream(l: Logs): Chunks { AllChunks(l.files) + l.base }

  /** How many numbered files there can be: one is kept even if none is asked for. */
  function Limit(maxFiles: int): nat { if maxFiles >= 1 then maxFiles else 1 }

  function Take<T>(s: seq<T>, n: nat): seq<T> { if |s| <= n then s else s[..n] }

  /** The effect of Write, monitor.go:357-374. */
  function Written(l: Logs, bs: Str, maxSize: int, maxFiles: int): Logs {
    if |Flatten(l.base)| + |bs| > maxSize then Logs(Take([l.base] + l.files, Limit(maxFiles)), [bs])
    else l.(base := l.base + [bs])
  }

  function Run(l: Logs, writes: seq<Str>, maxSize: int, maxFiles: int): Logs {
    if writes == [] then l
    else Written(Run(l, writes[..|writes| - 1], maxSize, maxFiles), writes[|writes| - 1], maxSize, maxFiles)
  }

  // ---------------------------------------------------------------- what every run keeps

  lemma {:induction false} FlattenConcat(c: Chunks, d: Chunks)
    ensures Flatten(c + d) == Flatten(c) + Flatten(d)
  {
    if d == [] {
      assert c + d == c;
    } else {
      assert (c + d)[..|c + d| - 1] == c + d[..|d| - 1];
      FlattenConcat(c, d[..|d| - 1]);
    }
  }

  predicate IsSuffix<T(==)>(s: seq<T>, t: seq<T>) { |s| <= |t| && s == t[|t| - |s|..] }

  lemma SuffixSplit<T>(a: seq<T>, b: seq<T>)
    ensures IsSuffix(b, a + b)
  {}

  lemma SuffixTransitive<T>(a: seq<T>, b: seq<T>, c: seq<T>)
    requires IsSuffix(a, b) && IsSuffix(b, c)
    ensures IsSuffix(a, c)
  {}

  lemma SuffixAppend<T>(a: seq<T>, b: seq<T>, x: seq<T>)
    requires IsSuffix(a, b)
    ensures IsSuffix(a + x, b + x)
  {}

  lemma {:induction false} AllChunksTake(files: seq<Chunks>, n: nat)
    ensures IsSuffix(AllChunks(Take(files, n)), AllChunks(files))
  {
    if files != [] && n > 0 {
      AllChunksTake(files[1..], n - 1);
      assert Take(files, n)[1..] == Take(files[1..], n - 1);
      SuffixAppend(AllChunks(Take(files[1..], n - 1)), AllChunks(files[1..]), files[0]);
    }
  }

  /** Within the size, or a single chunk. */
  predicate Sized(c: Chunks, maxSize: int) { |Flatten(c)| <= maxSize || |c| <= 1 }

  ghost predicate AllSized(l: Logs, maxSize: int) {
    Sized(l.base, maxSize) && forall i | 0 <= i < |l.files| :: Sized(l.files[i], maxSize)
  }

  /** After writing `writes`: the numbered files are within the limit, every file is within the
      size or a single chunk, and the chunks in the files, oldest first, are a suffix of all that
      there were; if something is lost, all numbered files are in use. */
  ghost predicate Retains(l: Logs, writes: seq<Str>, l': Logs, maxSize: int, maxFiles: int) {
    && |l.files| <= |l'.files| <= Limit(maxFiles) && AllSized(l', maxSize)
    && IsSuffix(Stream(l'), Stream(l) + writes)
    && (Stream(l') == Stream(l) + writes || |l'.files| == Limit(maxFiles))
  }

  lemma RetainsNothing(l: Logs, maxSize: int, maxFiles: int)
    requires |l.files| <= Limit(maxFiles) && AllSized(l, maxSize)
    ensures Retains(l, [], l, maxSize, maxFiles)
  {
    assert Stream(l) + [] == Stream(l);
  }

  lemma RetainsMore(l: Logs, writes: seq<Str>, m: Logs, maxSize: int, maxFiles: int)
    requires writes != [] && Retains(l, writes[..|writes| - 1], m, maxSize, maxFiles)
    ensures Retains(l, writes, Written(m, writes[|writes| - 1], maxSize, maxFiles), maxSize, maxFiles)
  {
    var init, last := writes[..|writes| - 1], writes[|writes| - 1];
    var l' := Written(m, last, maxSize, maxFiles);
    WrittenKeeps(m, last, maxSize, maxFiles);
    StreamMore(Stream(l), init, Stream(m), last, Stream(l'));
    assert init + [last] == writes;
  }

  lemma StreamMore(s: Chunks, init: Chunks, m: Chunks, last: Str, s': Chunks)
    requires IsSuffix(m, s + init) && IsSuffix(s', m + [last])
    ensures IsSuffix(s', s + (init + [last]))
    ensures m == s + init && s' == m + [last] ==> s' == s + (init + [last])
  {
    assert s + (init + [last]) == (s + init) + [last];
    SuffixAppend(m, s + init, [last]);
    SuffixTransitive(s', m + [last], s + (init + [last]));
  }

  lemma WrittenKeeps(l: Logs, bs: Str, maxSize: int, maxFiles: int)
    requires |l.files| <= Limit(maxFiles) && AllSized(l, maxSize)
    ensures Retains(l, [bs], Written(l, bs, maxSize, maxFiles), maxSize, maxFiles)
  {
    if |Flatten(l.base)| + |bs| > maxSize {
      RotatingKeeps(l, bs, maxSize, Limit(maxFiles));
    } else {
      FlattenConcat(l.base, [bs]);
      Single(bs);
      assert Stream(l.(base := l.base + [bs])) == Stream(l) + [bs];
    }
  }

  lemma RotatingKeeps(l: Logs, bs: Str, maxSize: int, n: nat)
    requires |l.files| <= n && n > 0 && AllSized(l, maxSize)
    ensures var l' := Logs(Take([l.base] + l.files, n), [bs]);
            && AllSized(l', maxSize) && IsSuffix(Stream(l'), Stream(l) + [bs])
            && (Stream(l') == Stream(l) + [bs] || |l'.files| == n)
  {
    var files := [l.base] + l.files;
    assert files[1..] == l.files;
    assert AllChunks(files) == Stream(l);
    AllChunksTake(files, n);
    SuffixAppend(AllChunks(Take(files, n)), Stream(l), [bs]);
  }

  /** Every run retains what it should: no write is split, and only whole chunks at the very start
      are lost, and only once all numbered files are in use. */
  lemma {:induction false} RunKeeps(l: Logs, writes: seq<Str>, maxSize: int, maxFiles: int)
    requires |l.files| <= Limit(maxFiles) && AllSized(l, maxSize)
    ensures Retains(l, writes, Run(l, writes, maxSize, maxFiles), maxSize, maxFiles)
  {
    if writes == [] {
      RetainsNothing(l, maxSize, maxFiles);
    } else {
      RunKeeps(l, writes[..|writes| - 1], maxSize, maxFiles);
      RetainsMore(l, writes, Run(l, writes[..|writes| - 1], maxSize, maxFiles), maxSize, maxFiles);
    }
  }

  /** No file was ended too early: the first chunk of the one after it would not have fitted. */
  ghost predicate Packed(l: Logs, maxSize: int) {
    forall i | 0 <= i < |l.files| :: EndsBefore(l.files[i], FileAfter(l, i), maxSize)
  }

  function FileAfter(l: Logs, i: nat): Chunks
    requires i < |l.files|
  {
    if i == 0 then l.base else l.files[i - 1]
  }

  predicate EndsBefore(file: Chunks, next: Chunks, maxSize: int) {
    next != [] && |Flatten(file)| + |next[0]| > maxSize
  }

  lemma WrittenPacked(l: Logs, bs: Str, maxSize: int, maxFiles: int)
    requires Packed(l, maxSize)
    ensures Packed(Written(l, bs, maxSize, maxFiles), maxSize)
  {
    if |Flatten(l.base)| + |bs| > maxSize {
      RotatedPacked(l, bs, maxSize, Limit(maxFiles));
    } else {
      forall i | 0 <= i < |l.files| ensures EndsBefore(l.files[i], FileAfter(l.(base := l.base + [bs]), i), maxSize) {
        assert EndsBefore(l.files[i], FileAfter(l, i), maxSize);
      }
    }
  }

  lemma RotatedPacked(l: Logs, bs: Str, maxSize: int, n: nat)
    requires n > 0 && Packed(l, maxSize) && |Flatten(l.base)| + |bs| > maxSize
    ensures Packed(Logs(Take([l.base] + l.files, n), [bs]), maxSize)
  {
    var l' := Logs(Take([l.base] + l.files, n), [bs]);
    forall i | 0 <= i < |l'.files| ensures EndsBefore(l'.files[i], FileAfter(l', i), maxSize) {
      TakeAt(l.files, l.base, n, i);
      if i > 0 {
        TakeAt(l.files, l.base, n, i - 1);
        assert EndsBefore(l.files[i - 1], FileAfter(l, i - 1), maxSize);
      }
    }
  }

  /** Every run rotates only when it has to. */
  lemma {:induction false} RunPacked(l: Logs, writes: seq<Str>, maxSize: int, maxFiles: int)
    requires Packed(l, maxSize)
    ensures Packed(Run(l, writes, maxSize, maxFiles), maxSize)
  {
    if writes != [] {
      RunPacked(l, writes[..|writes| - 1], maxSize, maxFiles);
      WrittenPacked(Run(l, writes[..|writes| - 1], maxSize, maxFiles), writes[|writes| - 1], maxSize, maxFiles);
    }
  }

  /** The same of the bytes. */
  lemma BytesKept(l: Logs, writes: seq<Str>, maxSize: int, maxFiles: int)
    requires |l.files| <= Limit(maxFiles) && AllSized(l, maxSize)
    ensures IsSuffix(Flatten(Stream(Run(l, writes, maxSize, maxFiles))), Flatten(Stream(l)) + Flatten(writes))
  {
    RunKeeps(l, writes, maxSize, maxFiles);
    var s, all := Stream(Run(l, writes, maxSize, maxFiles)), Stream(l) + writes;
    var lost := all[..|all| - |s|];
    assert all == lost + s;
    FlattenConcat(lost, s);
    FlattenConcat(Stream(l), writes);
    SuffixSplit(Flatten(lost), Flatten(s));
  }

  /** A rotation leaves at most `maxFiles` numbered files exactly if at least one is asked for. */
  lemma WithinMaxIff(l: Logs, bs: Str, maxSize: int, maxFiles: int)
    requires |l.files| <= Limit(maxFiles) && |Flatten(l.base)| + |bs| > maxSize
    ensures |Written(l, bs, maxSize, maxFiles).files| <= maxFiles <==> maxFiles >= 1
  {}

  // ---------------------------------------------------------------- the files on disk

  /** The numbered files, whatever is found, and the base file. */
  datatype OnDisk = OnDisk(numbered: map<int, Str>, base: Str)

  function File(numbered: map<int, Str>, k: int): Option<Str> {
    if k in numbered then Some(numbered[k]) else None
  }

  /** `os.Rename`, which does nothing if the file does not exist. */
  function Renamed(numbered: map<int, Str>, from: int, to: int): map<int, Str> {
    if from in numbered then (numbered - {from})[to := numbered[from]] else numbered
  }

  /** What file number `k` holds after a rotation, gaps and files beyond the limit included: each file
      below the last moves up by one, the last is replaced if there is one to replace it, and those
      beyond stay. */
  function RotatedAt(numbered: map<int, Str>, base: Str, n: nat, k: int): Option<Str> {
    if k == 0 then Some(base)
    else if 0 < k < n then (if k - 1 in numbered || k < n - 1 then File(numbered, k - 1) else File(numbered, k))
    else File(numbered, k)
  }

  function RotatedDisk(numbered: map<int, Str>, base: Str, n: nat): map<int, Str> {
    map k | k in numbered.Keys + {0} + (set j | j in numbered :: j + 1) && RotatedAt(numbered, base, n, k).Some? ::
      RotatedAt(numbered, base, n, k).value
  }

  lemma RotatedDiskAt(numbered: map<int, Str>, base: Str, n: nat, k: int)
    ensures File(RotatedDisk(numbered, base, n), k) == RotatedAt(numbered, base, n, k)
  {
    assert k - 1 in numbered ==> k in (set j | j in numbered :: j + 1);
  }

  lemma SameFiles(d: map<int, Str>, e: map<int, Str>)
    requires forall k :: File(d, k) == File(e, k)
    ensures d == e
  {
    forall k ensures k in d <==> k in e { assert File(d, k) == File(e, k); }
    assert d.Keys == e.Keys;
    forall k | k in d ensures d[k] == e[k] { assert File(d, k) == File(e, k); }
  }

  /** While rotating, before the file below `i` is renamed to `i`: those above `i` are done. */
  function ShiftAt(numbered: map<int, Str>, i: int, n: nat, k: int): Option<Str> {
    if i < k < n && (k - 1 in numbered || k < n - 1) then File(numbered, k - 1)
    else if k == i && i < n - 1 then None
    else File(numbered, k)
  }

  ghost predicate Shifting(numbered: map<int, Str>, disk: map<int, Str>, i: int, n: nat) {
    forall k :: File(disk, k) == ShiftAt(numbered, i, n, k)
  }

  lemma ShiftStep(numbered: map<int, Str>, disk: map<int, Str>, i: int, n: nat)
    requires 0 < i < n && Shifting(numbered, disk, i, n)
    ensures Shifting(numbered, Renamed(disk, i - 1, i), i - 1, n)
  {
    var disk' := Renamed(disk, i - 1, i);
    assert File(disk, i - 1) == ShiftAt(numbered, i, n, i - 1);
    forall k ensures File(disk', k) == ShiftAt(numbered, i - 1, n, k) {
      assert File(disk, k) == ShiftAt(numbered, i, n, k);
    }
  }

  lemma ShiftEnd(numbered: map<int, Str>, disk: map<int, Str>, base: Str, n: nat)
    requires n > 0 && Shifting(numbered, disk, 0, n)
    ensures disk[0 := base] == RotatedDisk(numbered, base, n)
  {
    forall k ensures File(disk[0 := base], k) == File(RotatedDisk(numbered, base, n), k) {
      RotatedDiskAt(numbered, base, n, k);
      assert File(disk, k) == ShiftAt(numbered, 0, n, k);
    }
    SameFiles(disk[0 := base], RotatedDisk(numbered, base, n));
  }

  // ---------------------------------------------------------------- runs on any disk

  function DiskWritten(d: OnDisk, bs: Str, maxSize: int, maxFiles: int): OnDisk {
    if |d.base| + |bs| > maxSize then OnDisk(RotatedDisk(d.numbered, d.base, Limit(maxFiles)), bs)
    else d.(base := d.base + bs)
  }

  function DiskRun(d: OnDisk, writes: seq<Str>, maxSize: int, maxFiles: int): OnDisk {
    if writes == [] then d
    else DiskWritten(DiskRun(d, writes[..|writes| - 1], maxSize, maxFiles), writes[|writes| - 1], maxSize, maxFiles)
  }

  /** How often a run rotates. */
  function Rotations(d: OnDisk, writes: seq<Str>, maxSize: int, maxFiles: int): nat {
    if writes == [] then 0 else
      var init, last := writes[..|writes| - 1], writes[|writes| - 1];
      Rotations(d, init, maxSize, maxFiles) +
      if |DiskRun(d, init, maxSize, maxFiles).base| + |last| > maxSize then 1 else 0
  }

  /** The files of `l` are on disk, in place. */
  ghost predicate Holds(d: OnDisk, l: Logs) {
    && d.base == Flatten(l.base)
    && forall k | 0 <= k < |l.files| :: File(d.numbered, k) == Some(Flatten(l.files[k]))
  }

  /** And no others up to the limit. */
  ghost predicate NoMore(d: OnDisk, l: Logs, n: nat) {
    forall k | |l.files| <= k < n :: File(d.numbered, k) == None
  }

  lemma TakeAt(files: seq<Chunks>, base: Chunks, n: nat, k: int)
    requires n > 0
    ensures var all := Take([base] + files, n);
            && (0 <= k < |all| <==> 0 <= k < n && k - 1 < |files|)
            && (0 <= k < |all| ==> all[k] == if k == 0 then base else files[k - 1])
  {}

  lemma RotationHolds(d: OnDisk, l: Logs, bs: Str, n: nat)
    requires Holds(d, l) && 0 < n && |l.files| <= n
    ensures var d', l' := OnDisk(RotatedDisk(d.numbered, d.base, n), bs), Logs(Take([l.base] + l.files, n), [bs]);
            Holds(d', l') && (NoMore(d, l, n) ==> NoMore(d', l', n))
  {
    var d', l' := OnDisk(RotatedDisk(d.numbered, d.base, n), bs), Logs(Take([l.base] + l.files, n), [bs]);
    Single(bs);
    forall k | 0 <= k < n
      ensures k < |l'.files| ==> File(d'.numbered, k) == Some(Flatten(l'.files[k]))
      ensures k >= |l'.files| && NoMore(d, l, n) ==> File(d'.numbered, k) == None
    {
      TakeAt(l.files, l.base, n, k);
      RotatedDiskAt(d.numbered, d.base, n, k);
      assert 0 < k && k - 1 < |l.files| ==> File(d.numbered, k - 1) == Some(Flatten(l.files[k - 1]));
    }
  }

  lemma WrittenHolds(d: OnDisk, l: Logs, bs: Str, maxSize: int, maxFiles: int)
    requires Holds(d, l) && |l.files| <= Limit(maxFiles)
    ensures var d', l' := DiskWritten(d, bs, maxSize, maxFiles), Written(l, bs, maxSize, maxFiles);
            && Holds(d', l') && |l'.files| <= Limit(maxFiles)
            && (NoMore(d, l, Limit(maxFiles)) ==> NoMore(d', l', Limit(maxFiles)))
  {
    if |d.base| + |bs| > maxSize {
      RotationHolds(d, l, bs, Limit(maxFiles));
    } else {
      FlattenConcat(l.base, [bs]);
      Single(bs);
    }
  }

  /** On any disk: the files of a run are where the run puts them, and if there were no others up to
      the limit there still are none. */
  lemma {:induction false} DiskRunHolds(d: OnDisk, l: Logs, writes: seq<Str>, maxSize: int, maxFiles: int)
    requires Holds(d, l) && |l.files| <= Limit(maxFiles)
    ensures var d', l' := DiskRun(d, writes, maxSize, maxFiles), Run(l, writes, maxSize, maxFiles);
            && Holds(d', l') && |l'.files| <= Limit(maxFiles)
            && (NoMore(d, l, Limit(maxFiles)) ==> NoMore(d', l', Limit(maxFiles)))
  {
    if writes != [] {
      var init := writes[..|writes| - 1];
      DiskRunHolds(d, l, init, maxSize, maxFiles);
      WrittenHolds(DiskRun(d, init, maxSize, maxFiles), Run(l, init, maxSize, maxFiles), writes[|writes| - 1], maxSize, maxFiles);
    }
  }

  /** Files beyond the limit stay, those below the last have moved up by `j`, and there is a last file
      if there was one. */
  ghost predicate Moved(d: OnDisk, d': OnDisk, j: nat, n: nat, k: int) {
    && (k < 0 || k >= n ==> File(d'.numbered, k) == File(d.numbered, k))
    && (j <= k < n - 1 ==> File(d'.numbered, k) == File(d.numbered, k - j))
    && (n - 1 in d.numbered ==> n - 1 in d'.numbered)
  }

  lemma RotationMoves(d: OnDisk, m: OnDisk, bs: Str, j: nat, n: nat, k: int)
    requires n > 0 && Moved(d, m, j, n, k) && Moved(d, m, j, n, k - 1)
    ensures Moved(d, OnDisk(RotatedDisk(m.numbered, m.base, n), bs), j + 1, n, k)
  {
    RotatedDiskAt(m.numbered, m.base, n, k);
    RotatedDiskAt(m.numbered, m.base, n, n - 1);
  }

  /** What was found before: files beyond the limit stay for good, the others have moved up by the
      number of rotations, with their gaps, as long as they are below the last; and that is only
      lost for another. */
  lemma {:induction false} FoundMoves(d: OnDisk, writes: seq<Str>, maxSize: int, maxFiles: int, k: int)
    ensures Moved(d, DiskRun(d, writes, maxSize, maxFiles), Rotations(d, writes, maxSize, maxFiles), Limit(maxFiles), k)
  {
    if writes != [] {
      var init, last := writes[..|writes| - 1], writes[|writes| - 1];
      FoundMoves(d, init, maxSize, maxFiles, k);
      FoundMoves(d, init, maxSize, maxFiles, k - 1);
      RotationMoves(d, DiskRun(d, init, maxSize, maxFiles), last, Rotations(d, init, maxSize, maxFiles), Limit(maxFiles), k);
    }
  }

  /** So from any start, however many files there are and with whatever gaps, a run keeps its own
      files as it would without the others. */
  lemma AnyStart(d: OnDisk, writes: seq<Str>, maxSize: int, maxFiles: int)
    ensures var d', l' := DiskRun(d, writes, maxSize, maxFiles), Run(Logs([], [d.base]), writes, maxSize, maxFiles);
            Holds(d', l') && Retains(Logs([], [d.base]), writes, l', maxSize, maxFiles) && Packed(l', maxSize)
  {
    Single(d.base);
    DiskRunHolds(d, Logs([], [d.base]), writes, maxSize, maxFiles);
    RunKeeps(Logs([], [d.base]), writes, maxSize, maxFiles);
    RunPacked(Logs([], [d.base]), writes, maxSize, maxFiles);
  }

  /** From contiguous files within the limit, the numbered files remain exactly those of the run. */
  lemma ContiguousStart(found: seq<Str>, base: Str, writes: seq<Str>, maxSize: int, maxFiles: int)
    requires |found| <= Limit(maxFiles)
    ensures var d := OnDisk(map k: int | 0 <= k < |found| :: found[k], base);
            var l := Logs(seq(|found|, i requires 0 <= i < |found| => [found[i]]), [base]);
            var d', l' := DiskRun(d, writes, maxSize, maxFiles), Run(l, writes, maxSize, maxFiles);
            && Holds(d', l') && NoMore(d', l', Limit(maxFiles)) && Retains(l, writes, l', maxSize, maxFiles)
            && forall k | k in d'.numbered :: 0 <= k < Limit(maxFiles)
  {
    var d := OnDisk(map k: int | 0 <= k < |found| :: found[k], base);
    var l := Logs(seq(|found|, i requires 0 <= i < |found| => [found[i]]), [base]);
    Single(base);
    forall i | 0 <= i < |found| ensures Flatten([found[i]]) == found[i] { Single(found[i]); }
    DiskRunHolds(d, l, writes, maxSize, maxFiles);
    RunKeeps(l, writes, maxSize, maxFiles);
    forall k | k in DiskRun(d, writes, maxSize, maxFiles).numbered ensures 0 <= k < Limit(maxFiles) {
      FoundMoves(d, writes, maxSize, maxFiles, k);
    }
  }

  class RotatedFile {
    const maxSize: int
    const maxFiles: int
    var numbered: map<int, Str>
    var base: Str
    var currentSize: int

    predicate Valid() reads this { currentSize == |base| }

    /** monitor.go:333-355: the size of what is found is remembered, and it is appended to. */
    constructor (numbered: map<int, Str>, base: Str, maxSize: int, maxFiles: int)
      ensures Valid() && this.maxSize == maxSize && this.maxFiles == maxFiles
      ensures this.numbered == numbered && this.base == base
    {
      this.maxSize, this.maxFiles, this.numbered, this.base, currentSize := maxSize, maxFiles, numbered, base, |base|;
    }

    /** monitor.go:376-394 */
    method Rotate()
      modifies this`numbered
      ensures numbered == RotatedDisk(old(numbered), base, Limit(maxFiles))
    {
      var i := maxFiles - 1;
      ghost var n := Limit(maxFiles);
      while i > 0
        invariant i < n && Shifting(old(numbered), numbered, if i > 0 then i else 0, n)
      {
        ShiftStep(old(numbered), numbered, i, n);
        numbered := Renamed(numbered, i - 1, i);
        i := i - 1;
      }
      ShiftEnd(old(numbered), numbered, base, n);
      numbered := numbered[0 := base];
    }

    /** monitor.go:357-374 */
    method Write(bs: Str)
      requires Valid()
      modifies this
      ensures Valid() && OnDisk(numbered, base) == DiskWritten(old(OnDisk(numbered, base)), bs, maxSize, maxFiles)
    {
      if currentSize + |bs| > maxSize {
        currentSize := 0;
        Rotate();
        base := [];
      }
      base := base + bs;
      currentSize := currentSize + |bs|;
    }
  }

  lemma Single(bs: Str)
    ensures Flatten([bs]) == bs
  {
    assert [bs][..0] == [];
  }
}
