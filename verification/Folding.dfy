/** Case folding of names (lib/fs/folding.go:19-63). Lower-casing and normalising other than ASCII
    strings is an opaque function. */
module Folding {
  import opened Bytes

  predicate Upper(c: byte) { 65 <= c <= 90 }

  predicate ASCII(s: Str) { forall i | 0 <= i < |s| :: s[i] <= 127 }

  predicate NoUpper(s: Str) { forall i | 0 <= i < |s| :: !Upper(s[i]) }

  function LowerByte(c: byte): byte { if Upper(c) then c + 32 else c }

  /** Lower-casing byte by byte, which the span-copying loop is compared with. */
  function Lower(s: Str): Str { seq(|s|, i requires 0 <= i < |s| => LowerByte(s[i])) }

  /** folding.go:30-41. The second result is only meaningful for ASCII strings. */
  method IsASCII(s: Str) returns (isASCII: bool, isLower: bool)
    ensures isASCII <==> ASCII(s)
    ensures isASCII ==> (isLower <==> NoUpper(s))
  {
    isLower := true;
    for i := 0 to |s|
      invariant ASCII(s[..i])
      invariant isLower <==> NoUpper(s[..i])
    {
      var b := s[i];
      assert s[..i + 1] == s[..i] + [b];
      if b > 127 {
        return false, isLower;
      }
      if Upper(b) {
        assert !NoUpper(s[..i + 1]) by { assert Upper(s[..i + 1][i]); }
        isLower := false;
      }
    }
    assert s[..|s|] == s;
    return true, isLower;
  }

  /** folding.go:43-63: spans without capitals are copied whole. */
  method ToLowerASCII(s: Str) returns (b: Str)
    ensures b == Lower(s)
  {
    b := [];
    var pos := 0;
    for i := 0 to |s|
      invariant 0 <= pos <= i && b == Lower(s[..pos]) && NoUpper(s[pos..i])
    {
      var c := s[i];
      if c < 65 || 90 < c {
        assert s[pos..i + 1] == s[pos..i] + [c];
      } else {
        LowerSpan(s, pos, i);
        if pos < i {
          b := b + s[pos..i];
        }
        pos := i + 1;
        b := b + [c + 97 - 65];
        assert s[..i + 1] == s[..i] + [c];
      }
    }
    LowerSpan(s, pos, |s|);
    assert s[..|s|] == s && s[pos..|s|] == s[pos..];
    if pos != |s| {
      b := b + s[pos..];
    }
  }

  lemma LowerSpan(s: Str, pos: nat, i: nat)
    requires pos <= i <= |s| && NoUpper(s[pos..i])
    ensures Lower(s[..i]) == Lower(s[..pos]) + s[pos..i]
  {
    forall k | 0 <= k < i ensures Lower(s[..i])[k] == (Lower(s[..pos]) + s[pos..i])[k] {
      if k >= pos {
        assert s[pos..i][k - pos] == s[k];
      }
    }
  }

  /** UnicodeLowercaseNormalized, folding.go:19-28. */
  function Fold(unicode: Str -> Str, s: Str): Str {
    if ASCII(s) then (if NoUpper(s) then s else Lower(s)) else unicode(s)
  }

  method UnicodeLowercaseNormalized(unicode: Str -> Str, s: Str) returns (r: Str)
    ensures r == Fold(unicode, s)
  {
    var isASCII, isLower := IsASCII(s);
    if isASCII {
      if isLower {
        return s;
      }
      r := ToLowerASCII(s);
      return;
    }
    return unicode(s);
  }

  /** `c` is a capital letter, from A to Z, and `d` is the small one. */
  predicate SmallOf(c: byte, d: byte) { 65 <= c <= 90 && d as int == c as int + 32 }

  /** Folding makes the capitals of a string of seven-bit bytes small and leaves the other bytes
      alone; any other string is left to the Unicode part. */
  lemma FoldMeans(unicode: Str -> Str, s: Str)
    ensures if exists i :: 0 <= i < |s| && s[i] >= 128 then Fold(unicode, s) == unicode(s)
            else |Fold(unicode, s)| == |s| && forall i | 0 <= i < |s| ::
                   if 65 <= s[i] <= 90 then SmallOf(s[i], Fold(unicode, s)[i]) else Fold(unicode, s)[i] == s[i]
  {}

  /** On ASCII, the result of folding folds to itself, and strings fold to the same exactly if
      they agree up to the case of letters. */
  lemma FoldASCII(unicode: Str -> Str, s: Str, t: Str)
    requires ASCII(s) && ASCII(t)
    ensures Fold(unicode, Fold(unicode, s)) == Fold(unicode, s)
    ensures Fold(unicode, s) == [] <==> s == []
    ensures Fold(unicode, s) == Fold(unicode, t) <==>
            |s| == |t| && forall i | 0 <= i < |s| :: s[i] == t[i] || SmallOf(s[i], t[i]) || SmallOf(t[i], s[i])
  {
    LowerFacts(unicode, s);
    LowerFacts(unicode, t);
    if Lower(s) == Lower(t) {
      forall i | 0 <= i < |s| ensures LowerByte(s[i]) == LowerByte(t[i]) {
        assert Lower(s)[i] == Lower(t)[i];
      }
    }
  }

  lemma LowerFacts(unicode: Str -> Str, s: Str)
    requires ASCII(s)
    ensures Fold(unicode, s) == Lower(s) && ASCII(Lower(s)) && NoUpper(Lower(s))
  {}

  /** Folding is idempotent exactly if what the Unicode part yields is left alone by folding. */
  lemma FoldIdempotentIff(unicode: Str -> Str)
    ensures (forall s :: Fold(unicode, Fold(unicode, s)) == Fold(unicode, s)) <==>
            forall s | !ASCII(s) :: if ASCII(unicode(s)) then NoUpper(unicode(s)) else unicode(unicode(s)) == unicode(s)
  {
    forall s | ASCII(s) ensures Fold(unicode, Fold(unicode, s)) == Fold(unicode, s) {
      FoldASCII(unicode, s, s);
    }
    forall s | !ASCII(s)
      ensures Fold(unicode, Fold(unicode, s)) == Fold(unicode, s) <==>
              if ASCII(unicode(s)) then NoUpper(unicode(s)) else unicode(unicode(s)) == unicode(s)
    {
      var u := unicode(s);
      assert Fold(unicode, s) == u;
      if ASCII(u) && !NoUpper(u) {
        LowerFacts(unicode, u);
        assert Lower(u) != u;
      }
    }
  }
}
