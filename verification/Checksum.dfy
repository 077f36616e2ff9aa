/** The Internet checksum as `MHipPacket::CalcChecksum` computes it (RFC 1071,
    without a pseudo-header), its arithmetic meaning, and what it detects. */
module Checksum {
  import opened Bytes

  const MODULUS := 0x1_0000_0000
  /** Longest input whose word sum fits the 32-bit accumulator for any content. */
  const SAFE_LENGTH := 131074

  /** What byte `b` at index `i` adds to the accumulator. */
  function Weight(i: nat, b: Byte): nat { if i % 2 == 0 then 256 * b else b }

  /** Sum of the big-endian 16-bit words of `s`, an odd last byte padded with zero. */
  function WordSum(s: Str): nat {
    if s == [] then 0 else WordSum(s[..|s| - 1]) + Weight(|s| - 1, s[|s| - 1])
  }

  /** The 32-bit accumulator's value for the sum `x`. */
  function Wrap(x: nat): (r: nat)
    ensures r < MODULUS
  {
    if x < MODULUS then x else Wrap(x - MODULUS)
  }

  /** Residue modulo 65535 in ones' complement: a nonzero multiple is 65535, not 0. */
  function Residue(x: nat): (r: Word) { if x <= 0xFFFF then x else Residue(x - 0xFFFF) }

  /** The value that `CalcChecksum` returns. */
  function ChecksumOf(s: Str): (r: Word) { 0xFFFF - Residue(Wrap(WordSum(s))) }

  /** `x` is 0 modulo 65535 (see `ResidueIsRemainder`). */
  predicate IsMultiple(x: nat) { Residue(x) == 0 || Residue(x) == 0xFFFF }

  /** Sums the bytes in 32 bits, folds the carries until 16 bits are left, complements. */
  method CalcChecksum(bytes: Str) returns (r: Word)
    ensures r == ChecksumOf(bytes)
  {
    var acc: nat := 0;
    for i := 0 to |bytes|
      invariant acc == Wrap(WordSum(bytes[..i]))
    {
      assert bytes[..i + 1][..i] == bytes[..i];
      WrapAdd(WordSum(bytes[..i]), Weight(i, bytes[i]));
      var b: nat := bytes[i];
      acc := (acc + if i % 2 == 0 then 256 * b else b) % MODULUS;
    }
    assert bytes[..|bytes|] == bytes;
    while acc / 0x1_0000 != 0
      invariant Residue(acc) == Residue(Wrap(WordSum(bytes)))
      decreases acc
    {
      FoldStep(acc);
      acc := acc % 0x1_0000 + acc / 0x1_0000;
    }
    r := 0xFFFF - acc;
  }

  lemma {:induction false} WrapAdd(x: nat, w: Word)
    ensures Wrap(x + w) == (Wrap(x) + w) % MODULUS
  {
    if x >= MODULUS {
      WrapAdd(x - MODULUS, w);
    } else if x + w >= MODULUS {
      assert Wrap(x + w) == x + w - MODULUS;
    }
  }

  /** At any length the checksum is the complement of the residue of the word sum modulo 2^32. */
  lemma ChecksumAtAnyLength(s: Str)
    ensures ChecksumOf(s) == 0xFFFF - Residue(WordSum(s) % MODULUS)
  {
    WrapIsRemainder(WordSum(s));
  }

  lemma {:induction false} WrapIsRemainder(x: nat)
    ensures Wrap(x) == x % MODULUS
  {
    if x >= MODULUS { WrapIsRemainder(x - MODULUS); }
  }

  /** One round of end-around carry keeps the residue; it is 0 only for 0. */
  lemma FoldStep(x: nat)
    requires x >= 0x1_0000
    ensures Residue(x % 0x1_0000 + x / 0x1_0000) == Residue(x)
  {
    var y := x % 0x1_0000 + x / 0x1_0000;
    assert x == y + 0xFFFF * (x / 0x1_0000);
    ResidueShift(y, x / 0x1_0000);
  }

  // ---------------------------------------------------------------- meaning

  /** `Residue` is the remainder modulo 65535, with 65535 for nonzero multiples. */
  lemma {:induction false} ResidueIsRemainder(x: nat)
    ensures Residue(x) % 0xFFFF == x % 0xFFFF
    ensures Residue(x) == 0 <==> x == 0
    ensures IsMultiple(x) <==> x % 0xFFFF == 0
  {
    if x > 0xFFFF { ResidueIsRemainder(x - 0xFFFF); }
  }

  lemma {:induction false} ResidueShift(x: nat, k: nat)
    requires x > 0
    ensures Residue(x + 0xFFFF * k) == Residue(x)
  {
    if k > 0 { ResidueShift(x, k - 1); }
  }

  lemma {:induction false} ResidueAdd(x: nat, w: Word)
    ensures Residue(x + w) == Residue(Residue(x) + w)
  {
    if x > 0xFFFF { ResidueAdd(x - 0xFFFF, w); }
  }

  /** The word sum is at most 65535 for every started word. */
  lemma {:induction false} WordSumBound(s: Str)
    ensures WordSum(s) <= 0xFFFF * ((|s| + 1) / 2)
    ensures |s| % 2 == 1 ==> WordSum(s) <= 0xFFFF * (|s| / 2) + 0xFF00
  {
    if s != [] { WordSumBound(s[..|s| - 1]); }
  }

  /** Up to 131074 bytes the accumulator never overflows, so the checksum is the
      complement of the word sum modulo 65535. */
  lemma ChecksumMeaning(s: Str)
    requires |s| <= SAFE_LENGTH
    ensures WordSum(s) < MODULUS
    ensures ChecksumOf(s) == 0xFFFF - Residue(WordSum(s))
  {
    WordSumBound(s);
  }

  /** The length bound is exact: two bytes more can overflow the accumulator. */
  lemma {:induction false} AllOnes(n: nat)
    ensures WordSum(seq(2 * n, _ => 255)) == 0xFFFF * n
  {
    var s: Str := seq(2 * n, _ => 255);
    if n > 0 {
      var t: Str := seq(2 * (n - 1), _ => 255);
      assert s[..2 * n - 1][..2 * n - 2] == t;
      AllOnes(n - 1);
    }
  }

  lemma OverflowPastTheBound()
    ensures exists s: Str :: |s| == SAFE_LENGTH + 2 && WordSum(s) >= MODULUS
  {
    AllOnes(65538);
    var s: Str := seq(2 * 65538, _ => 255);
    assert |s| == SAFE_LENGTH + 2 && WordSum(s) >= MODULUS;
  }

  // ---------------------------------------------------------------- updates

  /** Replacing one byte moves the word sum by the difference of the weights. */
  lemma {:induction false} WordSumUpdate(s: Str, i: nat, b: Byte)
    requires i < |s|
    ensures WordSum(s[i := b]) + Weight(i, s[i]) == WordSum(s) + Weight(i, b)
  {
    var t := s[i := b];
    if i < |s| - 1 {
      assert t[..|s| - 1] == s[..|s| - 1][i := b];
      WordSumUpdate(s[..|s| - 1], i, b);
    } else {
      assert t[..|s| - 1] == s[..|s| - 1];
    }
  }

  /** The 16-bit word at even offset `i`, and its replacement. */
  function WordAt(s: Str, i: nat): Word
    requires i + 1 < |s|
  {
    Join(s[i], s[i + 1])
  }

  function PutWord(s: Str, i: nat, w: Word): (t: Str)
    requires i + 1 < |s|
    ensures |t| == |s| && WordAt(t, i) == w
    ensures forall j :: 0 <= j < |s| && j != i && j != i + 1 ==> t[j] == s[j]
  {
    JoinSplit(w);
    s[i := Hi(w)][i + 1 := Lo(w)]
  }

  lemma WordSumPutWord(s: Str, i: nat, w: Word)
    requires i % 2 == 0 && i + 1 < |s|
    ensures WordSum(PutWord(s, i, w)) + WordAt(s, i) == WordSum(s) + w
  {
    hide Hi, Lo;
    WordSumPutBytes(s, i, Hi(w), Lo(w));
    JoinSplit(w);
  }

  lemma WordSumPutBytes(s: Str, i: nat, a: Byte, b: Byte)
    requires i % 2 == 0 && i + 1 < |s|
    ensures WordSum(s[i := a][i + 1 := b]) + WordAt(s, i) == WordSum(s) + Join(a, b)
  {
    var t := s[i := a];
    WordSumUpdate(s, i, a);
    WordSumUpdate(t, i + 1, b);
    assert t[i + 1] == s[i + 1];
    JoinValue(a, b);
    JoinValue(s[i], s[i + 1]);
    hide Raise, WordSum;
    assert Weight(i, s[i]) == 256 * s[i] as int && Weight(i, a) == 256 * a as int;
  }

  // ---------------------------------------------------------------- acceptance

  /** The test at the head of `FromBytes`: bytes 4 and 5 are cleared, and the value
      they held is compared with the checksum of what is left. */
  predicate ChecksumMatches(s: Str)
    requires |s| >= 6
  {
    WordAt(s, 4) == ChecksumOf(PutWord(s, 4, 0))
  }

  lemma MatchesIff(s: Str)
    requires 6 <= |s| <= SAFE_LENGTH
    ensures ChecksumMatches(s) <==> WordAt(s, 4) == 0xFFFF - Residue(WordSum(PutWord(s, 4, 0)))
  {
    ChecksumMeaning(PutWord(s, 4, 0));
  }

  /** A packet is accepted exactly when its full word sum is 0 modulo 65535 and the
      stored checksum is 0xFFFF just for the packet that is otherwise all zero. */
  lemma AcceptedIff(s: Str)
    requires 6 <= |s| <= SAFE_LENGTH
    ensures ChecksumMatches(s) <==>
            IsMultiple(WordSum(s)) && (WordAt(s, 4) == 0xFFFF <==> WordSum(PutWord(s, 4, 0)) == 0)
  {
    MatchesIff(s);
    WordSumPutWord(s, 4, 0);
    ComplementIff(WordSum(PutWord(s, 4, 0)), WordAt(s, 4), WordSum(s));
  }

  lemma ComplementIff(x: nat, w: Word, y: nat)
    requires y == x + w
    ensures w == 0xFFFF - Residue(x) <==> IsMultiple(y) && (w == 0xFFFF <==> x == 0)
  {
    ResidueAdd(x, w);
    ResidueIsRemainder(x);
  }

  /** Changing one aligned word outside the checksum field of an accepted packet gets
      it rejected, unless the change is between 0x0000 and 0xFFFF in a packet that
      has another nonzero word. */
  lemma WordChangeDetected(s: Str, i: nat, w: Word)
    requires 6 <= |s| <= SAFE_LENGTH
    requires i % 2 == 0 && i + 1 < |s| && i != 4
    requires ChecksumMatches(s)
    ensures ChecksumMatches(PutWord(s, i, w)) <==>
            w == WordAt(s, i) ||
            (((w == 0 && WordAt(s, i) == 0xFFFF) || (w == 0xFFFF && WordAt(s, i) == 0))
             && WordSum(PutWord(PutWord(s, 4, 0), i, 0)) != 0)
  {
    var t, c := PutWord(s, i, w), PutWord(s, 4, 0);
    ClearedChange(s, i, w);
    MatchesIff(s);
    MatchesIff(t);
    ResidueEqual(WordSum(PutWord(c, i, 0)), WordAt(s, i), w, WordSum(c), WordSum(PutWord(t, 4, 0)));
  }

  lemma ClearedChange(s: Str, i: nat, w: Word)
    requires |s| >= 6 && i % 2 == 0 && i + 1 < |s| && i != 4
    ensures WordAt(PutWord(s, i, w), 4) == WordAt(s, 4)
    ensures var c := PutWord(s, 4, 0);
            var rest := WordSum(PutWord(c, i, 0));
            WordSum(c) == rest + WordAt(s, i) && WordSum(PutWord(PutWord(s, i, w), 4, 0)) == rest + w
  {
    var c := PutWord(s, 4, 0);
    PutWordCommutes(s, i, w, 4, 0);
    WordSumPutWord(c, i, w);
    WordSumPutWord(c, i, 0);
  }

  lemma PutWordCommutes(s: Str, i: nat, v: Word, j: nat, w: Word)
    requires i % 2 == 0 && i + 1 < |s| && j % 2 == 0 && j + 1 < |s| && i != j
    ensures PutWord(PutWord(s, i, v), j, w) == PutWord(PutWord(s, j, w), i, v)
    ensures WordAt(PutWord(s, i, v), j) == WordAt(s, j) && WordAt(PutWord(s, j, w), i) == WordAt(s, i)
  {
    hide Hi, Lo;
    PutBytesCommutes(s, i, Hi(v), Lo(v), j, Hi(w), Lo(w));
  }

  lemma PutBytesCommutes(s: Str, i: nat, a: Byte, b: Byte, j: nat, c: Byte, d: Byte)
    requires i % 2 == 0 && i + 1 < |s| && j % 2 == 0 && j + 1 < |s| && i != j
    ensures s[i := a][i + 1 := b][j := c][j + 1 := d] == s[j := c][j + 1 := d][i := a][i + 1 := b]
  {
  }

  lemma ResidueEqual(rest: nat, v: Word, w: Word, x: nat, y: nat)
    requires x == rest + v && y == rest + w
    ensures Residue(x) == Residue(y) <==>
            w == v || (((w == 0 && v == 0xFFFF) || (w == 0xFFFF && v == 0)) && rest != 0)
  {
    ResidueAdd(rest, v);
    ResidueAdd(rest, w);
    ResidueIsRemainder(rest);
  }

  // ---------------------------------------------------------------- permutation

  /** The aligned words of `s`; an odd last byte is the high half of the last word. */
  function Words(s: Str): seq<Word> {
    if s == [] then []
    else if |s| == 1 then [Join(s[0], 0)]
    else [Join(s[0], s[1])] + Words(s[2..])
  }

  function Total(ws: seq<Word>): nat { if ws == [] then 0 else ws[0] + Total(ws[1..]) }

  lemma {:induction false} WordSumPrefix(a: Str, b: Str)
    requires |a| % 2 == 0
    ensures WordSum(a + b) == WordSum(a) + WordSum(b)
  {
    if b == [] {
      assert a + b == a;
    } else {
      var n := |b| - 1;
      assert (a + b)[..|a| + n] == a + b[..n] && (a + b)[|a| + n] == b[n];
      WeightShifts(|a|, n, b[n]);
      hide Weight;
      WordSumPrefix(a, b[..n]);
    }
  }

  lemma WeightShifts(m: nat, i: nat, b: Byte)
    requires m % 2 == 0
    ensures Weight(m + i, b) == Weight(i, b)
  {
  }

  lemma {:induction false} WordSumIsTotal(s: Str)
    ensures WordSum(s) == Total(Words(s))
  {
    if |s| >= 2 {
      var a := s[..2];
      assert s == a + s[2..] && a[..1] == [a[0]] && a[..1][..0] == [];
      JoinValue(s[0], s[1]);
      WordSumPrefix(a, s[2..]);
      WordSumIsTotal(s[2..]);
      assert WordSum(a) == WordSum(a[..1]) + Weight(1, a[1]);
    } else if |s| == 1 {
      assert s[..0] == [];
      assert s == [s[0]];
      JoinValue(s[0], 0);
    }
  }

  lemma {:induction false} TotalRemove(ws: seq<Word>, i: nat)
    requires i < |ws|
    ensures Total(ws) == ws[i] + Total(ws[..i] + ws[i + 1..])
  {
    if i == 0 {
      assert ws[..0] + ws[1..] == ws[1..];
    } else {
      TotalRemove(ws[1..], i - 1);
      assert (ws[..i] + ws[i + 1..])[1..] == ws[1..][..i - 1] + ws[1..][i..];
    }
  }

  lemma MultisetRemove(ws: seq<Word>, i: nat)
    requires i < |ws|
    ensures multiset(ws[..i] + ws[i + 1..]) == multiset(ws) - multiset{ws[i]}
  {
    assert ws == ws[..i] + [ws[i]] + ws[i + 1..];
  }

  lemma {:induction false} TotalPermutation(xs: seq<Word>, ys: seq<Word>)
    requires multiset(xs) == multiset(ys)
    ensures Total(xs) == Total(ys)
    decreases |xs|
  {
    if xs == [] {
      assert |multiset(ys)| == 0;
    } else {
      hide Total;
      assert xs[0] in multiset(ys);
      var i :| 0 <= i < |ys| && ys[i] == xs[0];
      MultisetRemove(xs, 0);
      MultisetRemove(ys, i);
      TotalRemove(xs, 0);
      TotalRemove(ys, i);
      TotalPermutation(xs[..0] + xs[1..], ys[..i] + ys[i + 1..]);
    }
  }

  /** Permuting the aligned words of a message never changes its checksum. */
  lemma PermutationUndetected(s: Str, t: Str)
    requires multiset(Words(s)) == multiset(Words(t))
    ensures ChecksumOf(s) == ChecksumOf(t)
  {
    WordSumIsTotal(s);
    WordSumIsTotal(t);
    TotalPermutation(Words(s), Words(t));
  }
}
