/** The puzzle: `hdx_ltrunc`, and `CHipPuzzleUtil`'s issue, solve and verify. */
module Puzzle {
  import opened Bytes
  import opened Crypto

  // ---------------------------------------------------------------- truncation

  /** `b & ~(1 << i)`. */
  function ClearBit(b: nat, i: nat): (r: nat)
    ensures r <= b
  {
    if i == 0 then b - b % 2 else 2 * ClearBit(b / 2, i - 1) + b % 2
  }

  /** `b` with its `r` lowest bits cleared. */
  function ClearLow(b: nat, r: nat): (c: nat)
    ensures c <= b
  {
    if r == 0 then b else 2 * ClearLow(b / 2, r - 1)
  }

  /** The leftmost `k` bits of `v`, in whole bytes, the unused low bits of the last byte
      cleared. */
  function Truncated(v: Str, k: nat): Str
    requires k <= 8 * |v|
  {
    var m := (k + 7) / 8;
    if m == 0 then [] else v[..m - 1] + [ClearLow(v[m - 1], 8 * m - k)]
  }

  method Ltrunc(v: Str, k: nat) returns (t: Str)
    requires k <= 8 * |v|
    ensures t == Truncated(v, k)
  {
    ghost var m := (k + 7) / 8;
    if k == 8 * |v| {
      assert v == [] || v == v[..|v| - 1] + [v[|v| - 1]];
      return v;
    }
    t := v[..(k + 7) / 8];
    if k < 8 * |t| {
      var i := 0;
      while i < 8 * |t| - k
        decreases 8 * |t| - k - i
        invariant 0 <= i <= 8 * |t| - k && |t| == m
        invariant t == v[..m - 1] + [ClearLow(v[m - 1], i)]
      {
        ClearNext(v[m - 1], i);
        t := t[|t| - 1 := ClearBit(t[|t| - 1], i)];
        i := i + 1;
      }
    } else {
      assert t == [] || t == v[..m - 1] + [v[m - 1]];
    }
  }

  /** Clearing bit `i` after the bits below it clears the lowest `i + 1` bits. */
  lemma {:induction false} ClearNext(b: nat, i: nat)
    ensures ClearBit(ClearLow(b, i), i) == ClearLow(b, i + 1)
  {
    if i > 0 { ClearNext(b / 2, i - 1); }
  }

  lemma {:induction false} ClearLowZeroIff(b: nat, r: nat)
    ensures ClearLow(b, r) == 0 <==> b < Pow2(r)
  {
    if r > 0 { ClearLowZeroIff(b / 2, r - 1); }
  }

  predicate AllZero(s: Str) { forall i :: 0 <= i < |s| ==> s[i] == 0 }

  /** The number that `s` encodes, most significant byte first. */
  function BigEndian(s: Str): nat {
    if s == [] then 0 else 256 * BigEndian(s[..|s| - 1]) + s[|s| - 1]
  }

  lemma Pow2Byte(n: nat)
    ensures Pow2(n + 8) == 256 * Pow2(n)
  {
    assert Pow2(n + 8) == 4 * Pow2(n + 6);
    assert Pow2(n + 6) == 4 * Pow2(n + 4);
    assert Pow2(n + 4) == 4 * Pow2(n + 2);
  }

  lemma {:induction false} BigEndianZeroIff(s: Str)
    ensures BigEndian(s) == 0 <==> AllZero(s)
  {
    if s != [] {
      var init := s[..|s| - 1];
      BigEndianZeroIff(init);
      assert AllZero(s) <==> AllZero(init) && s[|s| - 1] == 0;
    }
  }

  /** Only the leading `m` bytes matter when comparing with a power of two that high. */
  lemma {:induction false} CompareTop(v: Str, m: nat, r: nat)
    requires m <= |v|
    ensures BigEndian(v) < Pow2(r + 8 * (|v| - m)) <==> BigEndian(v[..m]) < Pow2(r)
  {
    if m == |v| {
      assert v[..m] == v;
    } else {
      var init := v[..|v| - 1];
      assert init[..m] == v[..m];
      CompareTop(init, m, r);
      Pow2Byte(r + 8 * (|init| - m));
    }
  }

  lemma TopZeroIff(top: Str, r: nat)
    requires top != [] && r < 8
    ensures AllZero(top[..|top| - 1] + [ClearLow(top[|top| - 1], r)]) <==> BigEndian(top) < Pow2(r)
  {
    var init, last := top[..|top| - 1], top[|top| - 1];
    var t := init + [ClearLow(last, r)];
    BigEndianZeroIff(init);
    ClearLowZeroIff(last, r);
    assert Pow2(8) == 256;
    Pow2Monotone(r, 8);
    assert AllZero(t) <==> AllZero(init) && ClearLow(last, r) == 0 by {
      assert t[|init|] == ClearLow(last, r);
      assert forall i :: 0 <= i < |init| ==> t[i] == init[i];
    }
  }

  lemma {:induction false} Pow2Monotone(n: nat, m: nat)
    requires n <= m
    ensures Pow2(n) <= Pow2(m)
    decreases m
  {
    if n < m { Pow2Monotone(n, m - 1); }
  }

  /** The truncation is all zero exactly when the number is below 2^(8n-k). */
  lemma TruncatedZeroIff(v: Str, k: nat)
    requires k <= 8 * |v|
    ensures AllZero(Truncated(v, k)) <==> BigEndian(v) < Pow2(8 * |v| - k)
  {
    hide BigEndian, Pow2, ClearLow, AllZero;
    var m := (k + 7) / 8;
    var r := 8 * m - k;
    CompareTop(v, m, r);
    if m > 0 {
      assert v[..m][..m - 1] == v[..m - 1];
      TopZeroIff(v[..m], r);
    } else {
      assert v[..m] == [];
      NothingKept();
    }
  }

  lemma NothingKept()
    ensures AllZero([]) && BigEndian([]) < Pow2(0)
  {
  }

  // ---------------------------------------------------------------- puzzle

  const FIXED_KEY: Str := [0x2B, 0x7E, 0x15, 0x16, 0x28, 0xAE, 0xD2, 0xA6,
                           0xAB, 0xF7, 0x15, 0x88, 0x09, 0xCF, 0x4F, 0x3C]

  /** The puzzle value, a MAC of the addresses under the built-in key. */
  function CalculateI(c: Suite, hitI: Str, hitR: Str, local: Str, remote: Str): Block {
    c.cmac(FIXED_KEY, hitI + hitR + local + remote)
  }

  /** Solution `j` leaves the leading `k` bits of the puzzle MAC zero. */
  predicate Solves(c: Suite, randomI: Str, hitI: Str, hitR: Str, j: Str, k: nat)
    requires k <= 128
  {
    AllZero(Truncated(c.cmac(randomI, hitI + hitR + j), k))
  }

  /** `SolveR` draws candidates until one passes; `drawn` is what the random source
      yields, and None means that it is still searching after them. */
  method SolveR(c: Suite, randomI: Str, hitI: Str, hitR: Str, k: nat, drawn: seq<Block>)
    returns (r: Option<Block>)
    requires k <= 128
    ensures r == FirstSolution(c, randomI, hitI, hitR, k, drawn)
  {
    assert drawn[0..] == drawn && drawn[|drawn|..] == [];
    hide Truncated, AllZero;
    for n := 0 to |drawn|
      invariant FirstSolution(c, randomI, hitI, hitR, k, drawn)
             == FirstSolution(c, randomI, hitI, hitR, k, drawn[n..])
    {
      var fed := hitI + hitR + drawn[n];
      var ok := LeadingZeros(c.cmac(randomI, fed), k);
      SearchStep(c, randomI, hitI, hitR, k, drawn, n);
      if ok { return Some(drawn[n]); }
    }
    r := None;
  }

  lemma SearchStep(c: Suite, randomI: Str, hitI: Str, hitR: Str, k: nat, drawn: seq<Block>, n: nat)
    requires k <= 128 && n < |drawn|
    ensures FirstSolution(c, randomI, hitI, hitR, k, drawn[n..]) ==
            if Solves(c, randomI, hitI, hitR, drawn[n], k) then Some(drawn[n])
            else FirstSolution(c, randomI, hitI, hitR, k, drawn[n + 1..])
  {
    hide Solves;
    assert drawn[n..][1..] == drawn[n + 1..];
  }

  method LeadingZeros(v: Str, k: nat) returns (ok: bool)
    requires k <= 8 * |v|
    ensures ok == AllZero(Truncated(v, k))
  {
    hide Truncated;
    var t := Ltrunc(v, k);
    ok := IsAllZero(t);
  }

  method IsAllZero(t: Str) returns (ok: bool)
    ensures ok == AllZero(t)
  {
    for i := 0 to |t|
      invariant AllZero(t[..i])
    {
      if t[i] != 0 { return false; }
    }
    ok := true;
  }

  function FirstSolution(c: Suite, randomI: Str, hitI: Str, hitR: Str, k: nat, drawn: seq<Block>): (r: Option<Block>)
    requires k <= 128
    ensures r.Some? ==> Solves(c, randomI, hitI, hitR, r.value, k)
    ensures r.None? ==> forall j :: j in drawn ==> !Solves(c, randomI, hitI, hitR, j, k)
  {
    if drawn == [] then None
    else if Solves(c, randomI, hitI, hitR, drawn[0], k) then Some(drawn[0])
    else FirstSolution(c, randomI, hitI, hitR, k, drawn[1..])
  }

  /** It is the first of the candidates that solves the puzzle. */
  lemma {:induction false} FirstSolutionAt(c: Suite, randomI: Str, hitI: Str, hitR: Str, k: nat, drawn: seq<Block>)
    returns (n: nat)
    requires k <= 128 && FirstSolution(c, randomI, hitI, hitR, k, drawn).Some?
    ensures n < |drawn| && drawn[n] == FirstSolution(c, randomI, hitI, hitR, k, drawn).value
    ensures forall m :: 0 <= m < n ==> !Solves(c, randomI, hitI, hitR, drawn[m], k)
  {
    hide Solves;
    if Solves(c, randomI, hitI, hitR, drawn[0], k) {
      n := 0;
    } else {
      n := FirstSolutionAt(c, randomI, hitI, hitR, k, drawn[1..]);
      n := n + 1;
    }
  }

  method VerifyPuzzle(c: Suite, k: nat, randomI: Str, j: Str, hitI: Str, hitR: Str, local: Str, remote: Str)
    returns (ok: bool)
    requires k <= 128
    ensures ok == (randomI == CalculateI(c, hitI, hitR, local, remote) && Solves(c, randomI, hitI, hitR, j, k))
  {
    var correct := CalculateI(c, hitI, hitR, local, remote);
    if correct != randomI { return false; }
    ok := LeadingZeros(c.cmac(correct, hitI + hitR + j), k);
  }

  /** A solution is a candidate whose puzzle MAC, read as a 128-bit number, is below
      2^(128-k). */
  lemma SolvesIff(c: Suite, randomI: Str, hitI: Str, hitR: Str, j: Str, k: nat)
    requires k <= 128
    ensures Solves(c, randomI, hitI, hitR, j, k)
            <==> BigEndian(c.cmac(randomI, hitI + hitR + j)) < Pow2(128 - k)
  {
    TruncatedZeroIff(c.cmac(randomI, hitI + hitR + j), k);
  }

  /** The puzzle value depends on each of the two HITs, as far as the MAC tells them apart. */
  lemma PuzzleBindsHits(c: Suite, a: Str, b: Str, a': Str, b': Str)
    requires |a| == |a'| && ToldApart(c, FIXED_KEY, a + b, a' + b')
    ensures CalculateI(c, a, b, [], []) == CalculateI(c, a', b', [], []) <==> a == a' && b == b'
  {
    assert a + b + [] + [] == a + b && a' + b' + [] + [] == a' + b';
    assert (a + b)[..|a|] == a && (a' + b')[..|a|] == a' && (a + b)[|a|..] == b && (a' + b')[|a|..] == b';
  }

  // ---------------------------------------------------------------- bits

  /** Bit `i` of a string, from the left. */
  predicate StrBit(s: Str, i: nat)
    requires i < 8 * |s|
  {
    Bit(s[i / 8], 7 - i % 8)
  }

  /** Truncation keeps the leading `k` bits and clears what is left of the last byte. */
  lemma TruncatedBits(v: Str, k: nat, i: nat)
    requires k <= 8 * |v| && i < 8 * ((k + 7) / 8)
    ensures |Truncated(v, k)| == (k + 7) / 8
    ensures StrBit(Truncated(v, k), i) <==> i < k && StrBit(v, i)
  {
    hide Bit, ClearLow;
    var m := (k + 7) / 8;
    if i / 8 == m - 1 {
      assert Truncated(v, k)[m - 1] == ClearLow(v[m - 1], 8 * m - k);
      ClearLowBits(v[m - 1], 8 * m - k, 7 - i % 8);
    }
  }

  lemma {:induction false} ClearLowBits(b: nat, r: nat, i: nat)
    ensures Bit(ClearLow(b, r), i) <==> i >= r && Bit(b, i)
  {
    if r > 0 && i > 0 { ClearLowBits(b / 2, r - 1, i - 1); }
  }
}
