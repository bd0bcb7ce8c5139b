/** Connection IDs (lib/connections/service.go:1416-1434): eight big-endian timestamp bytes and
    eight random bytes, each part written in the extended hex alphabet of section 7 of RFC 4648.
    Bits are written as bytes 0 and 1, so that one order serves bits, bytes and characters. */
module ConnectionID {
  import opened Bytes

  const TWO64: int := 0x1_0000_0000_0000_0000

  newtype int64 = i: int | -0x8000_0000_0000_0000 <= i < 0x8000_0000_0000_0000

  function Pow(base: nat, k: nat): nat { if k == 0 then 1 else base * Pow(base, k - 1) }

  ghost predicate InBase(s: Str, base: nat) { forall i | 0 <= i < |s| :: s[i] as nat < base }

  /** The number that big-endian digits stand for. */
  function Value(s: Str, base: nat): nat {
    if s == [] then 0 else s[0] as nat * Pow(base, |s| - 1) + Value(s[1..], base)
  }

  /** The last digit of `n` and the number before it. */
  function Cut(n: nat, base: nat): (r: (nat, nat))
    requires base == 2 || base == 256
    ensures n == r.0 * base + r.1 && r.1 < base
  {
    if base == 2 then (n / 2, n % 2) else (n / 256, n % 256)
  }

  /** The last `k` digits of `n`, most significant first (`binary.BigEndian.PutUint64` with base
      256 and eight digits). */
  function Digits(n: nat, base: nat, k: nat): Str
    requires base == 2 || base == 256
  {
    if k == 0 then [] else Digits(Cut(n, base).0, base, k - 1) + [Cut(n, base).1 as byte]
  }

  function Bits(s: Str): Str { if s == [] then [] else Digits(s[0] as nat, 2, 8) + Bits(s[1..]) }

  /** "0123456789ABCDEFGHIJKLMNOPQRSTUV" */
  function Character(v: nat): byte
    requires v < 32
  {
    if v < 10 then (48 + v) as byte else (55 + v) as byte
  }

  function Padded(s: Str): Str
    requires |s| <= 5
  {
    s + seq(5 - |s|, i => 0)
  }

  /** Five bits per character, the last group filled with zeros. */
  function Characters(bits: Str): Str
    requires InBase(bits, 2)
  {
    if bits == [] then []
    else
      var n := if |bits| < 5 then |bits| else 5;
      ValueBound(Padded(bits[..n]), 2);
      assert Pow(2, 5) == 32;
      [Character(Value(Padded(bits[..n]), 2))] + Characters(bits[n..])
  }

  /** `base32.HexEncoding.WithPadding(base32.NoPadding).EncodeToString` */
  function HexEncoding(s: Str): Str {
    BitsInBase(s);
    Characters(Bits(s))
  }

  /** The two parts are encoded separately. The sum of two int64 wraps around, and is read as an
      unsigned number. */
  function NewConnectionID(t0: int64, t1: int64, random: Str): Str {
    HexEncoding(Digits((t0 as int + t1 as int) % TWO64, 256, 8)) + HexEncoding(random)
  }

  // ---------------------------------------------------------------- digits and values

  lemma MulAssociative(a: nat, b: nat, c: nat)
    ensures a * (b * c) == a * b * c
  {}

  lemma {:induction false} PowSplit(base: nat, i: nat, j: nat)
    ensures Pow(base, i + j) == Pow(base, i) * Pow(base, j)
  {
    if i > 0 {
      PowSplit(base, i - 1, j);
      MulAssociative(base, Pow(base, i - 1), Pow(base, j));
    }
  }

  lemma {:induction false} ValueBound(s: Str, base: nat)
    requires InBase(s, base)
    ensures Value(s, base) < Pow(base, |s|)
  {
    if s != [] {
      ValueBound(s[1..], base);
      var p, d := Pow(base, |s| - 1), s[0] as nat;
      HigherDigit(d, base, p, Value(s[1..], base), 0);
    }
  }

  /** Digits of equal length are in lexicographic order as their values are in numeric order. */
  lemma {:induction false} ValueOrder(s: Str, t: Str, base: nat)
    requires |s| == |t| && InBase(s, base) && InBase(t, base)
    ensures Less(s, t) <==> Value(s, base) < Value(t, base)
  {
    if s != [] {
      ValueOrder(s[1..], t[1..], base);
      ValueBound(s[1..], base);
      ValueBound(t[1..], base);
      var p := Pow(base, |s| - 1);
      HigherDigit(s[0] as nat, t[0] as nat, p, Value(s[1..], base), Value(t[1..], base));
      HigherDigit(t[0] as nat, s[0] as nat, p, Value(t[1..], base), Value(s[1..], base));
    }
  }

  lemma HigherDigit(d: nat, e: nat, p: nat, v: nat, w: nat)
    requires v < p && w < p
    ensures d < e ==> d * p + v < e * p + w
  {
    if d < e {
      assert (d + 1) * p <= e * p;
    }
  }

  lemma Shifted(x: nat, p: nat, v: nat, base: nat)
    ensures x * (base * p) + v * base == (x * p + v) * base
  {}

  lemma {:induction false} ValueSnoc(s: Str, d: byte, base: nat)
    ensures Value(s + [d], base) == Value(s, base) * base + d as nat
  {
    if s == [] {
      assert [d][1..] == [];
    } else {
      ValueSnoc(s[1..], d, base);
      assert (s + [d])[1..] == s[1..] + [d];
      Shifted(s[0] as nat, Pow(base, |s| - 1), Value(s[1..], base), base);
    }
  }

  lemma {:induction false} DigitsValue(n: nat, base: nat, k: nat)
    requires (base == 2 || base == 256) && n < Pow(base, k)
    ensures |Digits(n, base, k)| == k && InBase(Digits(n, base, k), base)
    ensures Value(Digits(n, base, k), base) == n
  {
    if k > 0 {
      var (m, d) := Cut(n, base);
      CutBound(m, d, base, Pow(base, k - 1));
      DigitsValue(m, base, k - 1);
      ValueSnoc(Digits(m, base, k - 1), d as byte, base);
    }
  }

  lemma CutBound(m: nat, d: nat, base: nat, p: nat)
    requires m * base + d < base * p
    ensures m < p
  {
    assert m >= p ==> m * base >= p * base;
  }

  lemma DigitsOrder(n: nat, m: nat, base: nat, k: nat)
    requires (base == 2 || base == 256) && n < Pow(base, k) && m < Pow(base, k)
    ensures Less(Digits(n, base, k), Digits(m, base, k)) <==> n < m
  {
    DigitsValue(n, base, k);
    DigitsValue(m, base, k);
    ValueOrder(Digits(n, base, k), Digits(m, base, k), base);
  }

  // ---------------------------------------------------------------- the encoding keeps the order

  /** Strings that begin with parts of equal length compare by these first. */
  lemma {:induction false} LessConcat(p: Str, x: Str, q: Str, y: Str)
    requires |p| == |q|
    ensures Less(p + x, q + y) <==> Less(p, q) || (p == q && Less(x, y))
  {
    if p == [] {
      assert p + x == x && q + y == y;
    } else {
      LessConcat(p[1..], x, q[1..], y);
      assert (p + x)[1..] == p[1..] + x && (q + y)[1..] == q[1..] + y;
      assert p == [p[0]] + p[1..] && q == [q[0]] + q[1..];
    }
  }

  lemma ByteBits(b: byte)
    ensures |Digits(b as nat, 2, 8)| == 8 && InBase(Digits(b as nat, 2, 8), 2)
    ensures Value(Digits(b as nat, 2, 8), 2) == b as nat
  {
    assert Pow(2, 3) == 8;
    PowSplit(2, 3, 3);
    PowSplit(2, 6, 2);
    DigitsValue(b as nat, 2, 8);
  }

  lemma {:induction false} BitsInBase(s: Str)
    ensures |Bits(s)| == 8 * |s| && InBase(Bits(s), 2)
  {
    if s != [] {
      ByteBits(s[0]);
      BitsInBase(s[1..]);
    }
  }

  lemma {:induction false} BitsOrder(s: Str, t: Str)
    requires |s| == |t|
    ensures Less(Bits(s), Bits(t)) <==> Less(s, t)
  {
    if s != [] {
      BitsOrder(s[1..], t[1..]);
      ByteBits(s[0]);
      ByteBits(t[0]);
      var x, y := Digits(s[0] as nat, 2, 8), Digits(t[0] as nat, 2, 8);
      ValueOrder(x, y, 2);
      LessConcat(x, Bits(s[1..]), y, Bits(t[1..]));
    }
  }

  /** The alphabet is that of the RFC: the digits, then the capital letters up to V. */
  lemma Alphabet(v: nat)
    requires v < 32
    ensures Character(v) as int == "0123456789ABCDEFGHIJKLMNOPQRSTUV"[v] as int
  {}

  /** The alphabet is ascending. */
  lemma CharacterOrder(v: nat, w: nat)
    requires v < 32 && w < 32
    ensures Character(v) < Character(w) <==> v < w
  {}

  lemma PaddedOrder(s: Str, t: Str)
    requires |s| == |t| <= 5 && InBase(s, 2) && InBase(t, 2)
    ensures Value(Padded(s), 2) < Value(Padded(t), 2) <==> Less(s, t)
    ensures Value(Padded(s), 2) == Value(Padded(t), 2) <==> s == t
  {
    var zeros := seq(5 - |s|, i => 0 as byte);
    ValueOrder(Padded(s), Padded(t), 2);
    ValueOrder(Padded(t), Padded(s), 2);
    LessConcat(s, zeros, t, zeros);
    LessConcat(t, zeros, s, zeros);
    LessIrreflexive(zeros);
    LessTotal(s, t);
    LessIrreflexive(s);
  }

  lemma {:induction false} CharactersOrder(s: Str, t: Str)
    requires |s| == |t| && InBase(s, 2) && InBase(t, 2)
    ensures |Characters(s)| == |Characters(t)| == (|s| + 4) / 5
    ensures Less(Characters(s), Characters(t)) <==> Less(s, t)
    decreases |s|
  {
    if s != [] {
      var n := if |s| < 5 then |s| else 5;
      CharactersOrder(s[n..], t[n..]);
      PaddedOrder(s[..n], t[..n]);
      assert Pow(2, 5) == 32;
      ValueBound(Padded(s[..n]), 2);
      ValueBound(Padded(t[..n]), 2);
      CharacterOrder(Value(Padded(s[..n]), 2), Value(Padded(t[..n]), 2));
      assert s == s[..n] + s[n..] && t == t[..n] + t[n..];
      LessConcat(s[..n], s[n..], t[..n], t[n..]);
      assert Characters(s)[1..] == Characters(s[n..]) && Characters(t)[1..] == Characters(t[n..]);
    }
  }

  /** Encoding keeps the order of strings of equal length, and so tells them apart. */
  lemma HexEncodingOrder(s: Str, t: Str)
    requires |s| == |t|
    ensures |HexEncoding(s)| == |HexEncoding(t)| == (8 * |s| + 4) / 5
    ensures Less(HexEncoding(s), HexEncoding(t)) <==> Less(s, t)
    ensures HexEncoding(s) == HexEncoding(t) <==> s == t
  {
    BitsInBase(s);
    BitsInBase(t);
    CharactersOrder(Bits(s), Bits(t));
    CharactersOrder(Bits(t), Bits(s));
    BitsOrder(s, t);
    BitsOrder(t, s);
    LessTotal(s, t);
    LessIrreflexive(HexEncoding(s));
  }

  // ---------------------------------------------------------------- connection IDs

  lemma Pow64()
    ensures Pow(256, 8) == TWO64
  {
    assert Pow(256, 2) == 0x1_0000;
    PowSplit(256, 2, 2);
    PowSplit(256, 4, 4);
  }

  /** IDs compare first by the wrapped sum of the timestamps, then by the random part. */
  lemma IDOrder(t0: int64, t1: int64, r: Str, u0: int64, u1: int64, q: Str)
    requires |r| == |q| == 8
    ensures var n, m := (t0 as int + t1 as int) % TWO64, (u0 as int + u1 as int) % TWO64;
            && |NewConnectionID(t0, t1, r)| == 26
            && (Less(NewConnectionID(t0, t1, r), NewConnectionID(u0, u1, q)) <==> n < m || (n == m && Less(r, q)))
            && (NewConnectionID(t0, t1, r) == NewConnectionID(u0, u1, q) <==> n == m && r == q)
  {
    var n, m := (t0 as int + t1 as int) % TWO64, (u0 as int + u1 as int) % TWO64;
    Pow64();
    DigitsValue(n, 256, 8);
    DigitsValue(m, 256, 8);
    DigitsOrder(n, m, 256, 8);
    var s, t := Digits(n, 256, 8), Digits(m, 256, 8);
    HexEncodingOrder(s, t);
    HexEncodingOrder(r, q);
    LessConcat(HexEncoding(s), HexEncoding(r), HexEncoding(t), HexEncoding(q));
    assert |HexEncoding(s)| == 13 && |HexEncoding(t)| == 13;
    var a, b := NewConnectionID(t0, t1, r), NewConnectionID(u0, u1, q);
    assert a[..13] == HexEncoding(s) && a[13..] == HexEncoding(r);
    assert b[..13] == HexEncoding(t) && b[13..] == HexEncoding(q);
  }

  /** The ID of the smaller sum is smaller for all random parts. */
  ghost predicate Sorts(t0: int64, t1: int64, u0: int64, u1: int64) {
    forall r: Str, q: Str | |r| == |q| == 8 :: Less(NewConnectionID(t0, t1, r), NewConnectionID(u0, u1, q))
  }

  /** Connection IDs sort chronologically whatever the random parts exactly when the sums do not
      lie on both sides of zero (or are further apart than 2^64). */
  lemma ChronologicalIff(t0: int64, t1: int64, u0: int64, u1: int64)
    requires t0 as int + t1 as int < u0 as int + u1 as int
    ensures var s, s' := t0 as int + t1 as int, u0 as int + u1 as int;
            Sorts(t0, t1, u0, u1) <==> s >= 0 || s' < 0 || s' - s > TWO64
  {
    var s, s' := t0 as int + t1 as int, u0 as int + u1 as int;
    var zero: Str := seq(8, i => 0);
    IDOrder(t0, t1, zero, u0, u1, zero);
    LessIrreflexive(zero);
    Wrapped(s);
    Wrapped(s');
    if s >= 0 || s' < 0 || s' - s > TWO64 {
      forall r: Str, q: Str | |r| == |q| == 8
        ensures Less(NewConnectionID(t0, t1, r), NewConnectionID(u0, u1, q))
      {
        IDOrder(t0, t1, r, u0, u1, q);
      }
    } else {
      assert !Less(NewConnectionID(t0, t1, zero), NewConnectionID(u0, u1, zero));
    }
  }

  lemma Wrapped(s: int)
    requires -TWO64 <= s < TWO64
    ensures s % TWO64 == if s >= 0 then s else s + TWO64
  {}

  /** A remote timestamp that makes the sum negative turns the order around. */
  lemma NegativeSumsBreak(ours: int64, theirs: int64)
    requires ours >= 0 && ours as int + theirs as int < 0
    ensures !Sorts(ours, theirs, ours, 0)
  {
    ChronologicalIff(ours, theirs, ours, 0);
  }
}
