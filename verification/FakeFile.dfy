/** Reads of content-less fake files (lib/fs/fakefs.go:744-962): a cached position in a
    pseudorandom stream must give the same bytes as recomputing each from scratch. */
module FakeFile {
  import opened Bytes
  import opened Ints

  /** randomBlockShift is 14. */
  const BLOCK: int := 16384

  /** The bytes a generator yields: by its int64 seed and the position in its stream. */
  type Generator = (int, nat) -> byte

  /** The byte at offset `k` of the file with the given main seed, from scratch. */
  function ByteAt(g: Generator, seed: int, k: int): byte {
    g(Wrap(W64, seed + k / BLOCK), k % BLOCK)
  }

  /** The `n` bytes from offset `k`. */
  function Content(g: Generator, seed: int, k: int, n: nat): (s: Str)
    ensures |s| == n
  {
    seq(n, i requires 0 <= i < n => ByteAt(g, seed, k + i))
  }

  /** Reading in two parts gives the same bytes as reading at once. */
  lemma ContentSplit(g: Generator, seed: int, k: int, n: nat, m: nat)
    ensures Content(g, seed, k, n + m) == Content(g, seed, k, n) + Content(g, seed, k + n, m)
  {}

  /** The file is a row of blocks of 2^14 bytes; byte `i` of block `b` is number `i` of the stream
      whose seed is the main seed plus `b`, as an int64. */
  lemma ByteOfBlock(g: Generator, seed: int, b: int, i: nat, blockSeed: int)
    requires i < 0x4000 && -0x8000_0000_0000_0000 <= blockSeed < 0x8000_0000_0000_0000
    requires (seed + b - blockSeed) % 0x1_0000_0000_0000_0000 == 0
    ensures ByteAt(g, seed, 0x4000 * b + i) == g(blockSeed, i)
  {
    DivBlock(b, i);
    assert Wrap(W64, seed + b) == blockSeed;
  }

  datatype Error = NoError | EOF | IsDirectory | SeekBeforeStart

  datatype Whence = SeekStart | SeekCurrent | SeekEnd

  datatype Rng = NoRng | Rng(seed: int, pos: nat)

  function Min(a: int, b: int): int { if a <= b then a else b }

  /** The part of an entry that open files share; another handle may change the size at any time. */
  class FakeEntry {
    const isDir: bool
    /** The FNV hash of the file name, as int64. */
    const hash: int
    var size: int

    constructor (isDir: bool, hash: int, size: int)
      ensures this.isDir == isDir && this.hash == hash && this.size == size
    {
      this.isDir, this.hash, this.size := isDir, hash, size;
    }
  }

  class FakeFile {
    const entry: FakeEntry
    const g: Generator
    var rng: Rng
    var seed: int
    var offset: int
    var seedOffs: int

    /** A cached generator is the one for block seedOffs, read up to the current offset. */
    ghost predicate Valid()
      reads this
    {
      && (seed == 0 || seed == entry.hash)
      && (rng.Rng? ==> && seed == entry.hash
                       && rng.seed == Wrap(W64, seed + seedOffs)
                       && offset == seedOffs * BLOCK + rng.pos)
    }

    constructor (entry: FakeEntry, g: Generator)
      ensures Valid() && this.entry == entry && this.g == g && offset == 0
    {
      this.entry, this.g := entry, g;
      rng, seed, offset, seedOffs := NoRng, 0, 0, 0;
    }

    /** fakefs.go:790-871, reading into p[lo..]: at most to the end of the file and of the block. */
    method ReadShortAt(p: array<byte>, lo: nat, offs: int) returns (n: nat, err: Error)
      requires Valid() && lo <= p.Length
      modifies this, p
      ensures Valid()
      ensures entry.isDir ==> n == 0 && err == IsDirectory
      ensures !entry.isDir && offs >= entry.size ==> n == 0 && err == EOF
      ensures !entry.isDir && offs < entry.size ==>
                && err == NoError && n == Min(p.Length - lo, Min(entry.size - offs, BLOCK - offs % BLOCK))
                && offset == offs + n
      ensures lo + n <= p.Length && p[lo..lo + n] == Content(g, entry.hash, offs, n)
      ensures p[..lo] == old(p[..lo]) && p[lo + n..] == old(p[lo + n..])
    {
      if entry.isDir {
        return 0, IsDirectory;
      }
      if offs >= entry.size {
        return 0, EOF;
      }
      Locate(offs);
      var nextBlockOffs := (offs / BLOCK + 1) * BLOCK;
      var size := p.Length - lo;
      if offs + size > entry.size {
        size := entry.size - offs;
      }
      if offs + size > nextBlockOffs {
        size := nextBlockOffs - offs;
      }
      Pull(p, lo, size);
      return size, NoError;
    }

    /** fakefs.go:828-855: keep the generator if the read continues the last one, else make a new
        one for the block and discard the bytes before the offset. */
    method Locate(offs: int)
      requires Valid()
      modifies this
      ensures Valid() && rng.Rng? && offset == offs && seedOffs == offs / BLOCK && rng.pos == offs % BLOCK
    {
      if seed == 0 {
        seed := entry.hash;
      }
      var seedNo := offs / BLOCK;
      var minOffs := seedNo * BLOCK;
      if rng.NoRng? || offset != offs || seedNo != seedOffs {
        rng := Rng(Wrap(W64, seed + seedNo), offs - minOffs);
        offset := offs;
        seedOffs := seedNo;
      }
    }

    /** fakefs.go:869-870: the next bytes of the generator. */
    method Pull(p: array<byte>, lo: nat, size: nat)
      requires Valid() && rng.Rng? && rng.pos + size <= BLOCK && lo + size <= p.Length
      modifies this, p
      ensures Valid() && offset == old(offset) + size
      ensures p[lo..lo + size] == Content(g, entry.hash, old(offset), size)
      ensures p[..lo] == old(p[..lo]) && p[lo + size..] == old(p[lo + size..])
    {
      offset := offset + size;
      var r := rng;
      forall i | 0 <= i < size { p[lo + i] := g(r.seed, r.pos + i); }
      rng := Rng(r.seed, r.pos + size);
      SameBlock(g, entry.hash, seedOffs, r.pos, p[lo..lo + size]);
    }

    /** fakefs.go:761-765 */
    method Read(p: array<byte>) returns (n: nat, err: Error)
      requires Valid()
      modifies this, p
      ensures Valid()
      ensures entry.isDir ==> n == 0 && err == IsDirectory
      ensures !entry.isDir && old(offset) >= entry.size ==> n == 0 && err == EOF
      ensures !entry.isDir && old(offset) < entry.size ==>
                && err == NoError && n == Min(p.Length, Min(entry.size - old(offset), BLOCK - old(offset) % BLOCK))
                && offset == old(offset) + n
      ensures n <= p.Length && p[..n] == Content(g, entry.hash, old(offset), n) && p[n..] == old(p[n..])
    {
      n, err := ReadShortAt(p, 0, offset);
      assert p[0..0 + n] == p[..n] && p[0 + n..] == p[n..];
    }

    /** fakefs.go:767-788. Terminates, since every short read that is not the last gets a byte. */
    method ReadAt(p: array<byte>, offs: int) returns (read: nat, err: Error)
      requires Valid()
      modifies this, p
      ensures Valid()
      ensures entry.isDir ==> read == 0 && err == IsDirectory
      ensures !entry.isDir ==> read == if offs >= entry.size then 0 else Min(p.Length, entry.size - offs)
      ensures !entry.isDir ==> (err == EOF <==> offs >= entry.size || p.Length > entry.size - offs)
      ensures err.EOF? || err.NoError? || err.IsDirectory?
      ensures read <= p.Length && p[..read] == Content(g, entry.hash, offs, read)
      ensures p[read..] == old(p[read..])
    {
      read := 0;
      while true
        invariant Valid() && entry.size == old(entry.size)
        invariant read == 0 || read < p.Length
        invariant read == 0 || (!entry.isDir && read <= Min(p.Length, entry.size - offs))
        invariant read <= p.Length && p[..read] == Content(g, entry.hash, offs, read)
        invariant p[read..] == old(p[read..])
        decreases p.Length - read
      {
        var n;
        ghost var before := p[..];
        n, err := ReadShortAt(p, read, offs + read);
        ContentSplit(g, entry.hash, offs, read, n);
        assert p[..read + n] == p[..read] + p[read..read + n];
        assert p[read + n..] == before[read + n..] == before[read..][n..];
        read := read + n;
        if err != NoError || read == p.Length {
          return;
        }
      }
    }

    /** fakefs.go:873-900 */
    method Seek(off: int, whence: Whence) returns (pos: int, err: Error)
      requires Valid()
      modifies this
      ensures Valid()
      ensures entry.isDir ==> pos == 0 && offset == old(offset) && err == IsDirectory
      ensures !entry.isDir ==>
                var target := match whence
                              case SeekCurrent => old(offset) + off
                              case SeekEnd => entry.size - off
                              case SeekStart => off;
                && pos == offset
                && (target < 0 ==> offset == 0 && err == SeekBeforeStart)
                && (target > entry.size && target >= 0 ==> offset == entry.size && err == EOF)
                && (0 <= target <= entry.size ==> offset == target && err == NoError)
    {
      if entry.isDir {
        return 0, IsDirectory;
      }
      rng := NoRng;
      match whence {
        case SeekCurrent => offset := offset + off;
        case SeekEnd => offset := entry.size - off;
        case SeekStart => offset := off;
      }
      if offset < 0 {
        offset := 0;
        return offset, SeekBeforeStart;
      }
      if offset > entry.size {
        offset := entry.size;
        return offset, EOF;
      }
      return offset, NoError;
    }

    /** fakefs.go:909-932 without saved content: only the size can change. */
    method WriteAt(p: Str, off: int) returns (n: nat, err: Error)
      requires Valid()
      modifies this, entry
      ensures Valid()
      ensures entry.isDir ==> n == 0 && err == IsDirectory && entry.size == old(entry.size)
      ensures !entry.isDir ==>
                && n == |p| && err == NoError && offset == off + |p|
                && entry.size == if off + |p| > old(entry.size) then off + |p| else old(entry.size)
    {
      if entry.isDir {
        return 0, IsDirectory;
      }
      rng := NoRng;
      offset := off + |p|;
      if offset > entry.size {
        entry.size := offset;
      }
      return |p|, NoError;
    }

    /** fakefs.go:943-962 without saved content. */
    method Truncate(size: int)
      requires Valid()
      modifies this, entry
      ensures Valid() && entry.size == size && offset == Min(old(offset), size)
    {
      rng := NoRng;
      entry.size := size;
      if offset > size {
        offset := size;
      }
    }
  }

  /** Consecutive bytes of one block come from one generator. */
  lemma SameBlock(g: Generator, seed: int, block: int, pos: nat, s: Str)
    requires pos + |s| <= BLOCK
    requires forall i | 0 <= i < |s| :: s[i] == g(Wrap(W64, seed + block), pos + i)
    ensures s == Content(g, seed, block * BLOCK + pos, |s|)
  {
    forall i | 0 <= i < |s| ensures s[i] == ByteAt(g, seed, block * BLOCK + pos + i) {
      DivBlock(block, pos + i);
      assert block * BLOCK + pos + i == block * BLOCK + (pos + i);
    }
  }

  lemma DivBlock(b: int, r: int)
    requires 0 <= r < BLOCK
    ensures (b * BLOCK + r) / BLOCK == b && (b * BLOCK + r) % BLOCK == r
  {}
}
