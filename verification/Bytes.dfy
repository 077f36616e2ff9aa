/** Byte strings: the `TCharArray` of the C++ code, plus the few operations on
    machine words that the rest of the model needs. */
module Bytes {

  type Byte = x: int | 0 <= x < 256
  type Word = x: int | 0 <= x < 0x1_0000
  type Str = seq<Byte>

  datatype Option<+T> = None | Some(value: T)

  /** Big-endian 16-bit word from its two bytes, and back. All three count in 256s, which
      keeps products and quotients out of everything that prints or parses a word;
      `JoinValue` and `HiLo` relate them to the shifts and masks of the source. */
  function Join(hi: Byte, lo: Byte): Word {
    JoinValue(hi, lo);
    Raise(hi, lo)
  }

  function Raise(hi: nat, lo: nat): nat { if hi == 0 then lo else Raise(hi - 1, lo) + 256 }

  lemma {:induction false} JoinValue(hi: nat, lo: nat)
    ensures Raise(hi, lo) == 256 * hi + lo
  {
    if hi > 0 { JoinValue(hi - 1, lo); }
  }

  function Hi(n: nat): Byte {
    if n < 256 then 0
    else
      var h := Hi(n - 256);
      if h == 255 then 0 else h + 1
  }

  function Lo(n: nat): Byte { if n < 256 then n else Lo(n - 256) }

  lemma {:induction false} HiLo(n: nat)
    ensures Hi(n) == n / 256 % 256 && Lo(n) == n % 256
  {
    if n >= 256 {
      HiLo(n - 256);
      NextQuotient(n - 256);
    }
  }

  lemma NextQuotient(n: nat)
    ensures (n + 256) % 256 == n % 256
    ensures (n + 256) / 256 % 256 == if n / 256 % 256 == 255 then 0 else n / 256 % 256 + 1
  {
    var q := n / 256;
    assert (n + 256) / 256 == q + 1;
  }

  lemma JoinSplit(n: nat)
    requires n < 0x1_0000
    ensures Join(Hi(n), Lo(n)) == n
  {
    HiLo(n);
    JoinValue(Hi(n), Lo(n));
  }

  lemma SplitJoin(hi: Byte, lo: Byte)
    ensures Hi(Join(hi, lo)) == hi && Lo(Join(hi, lo)) == lo
  {
    HiLo(Join(hi, lo));
    JoinValue(hi, lo);
    hide Raise, Hi, Lo;
  }

  /** `g` occurs in `s` at offset `o`. */
  predicate Occurs(s: Str, o: nat, g: Str) {
    o + |g| <= |s| && s[o..o + |g|] == g
  }

  lemma OccursConcat(s: Str, o: nat, a: Str, b: Str)
    ensures Occurs(s, o, a + b) <==> Occurs(s, o, a) && Occurs(s, o + |a|, b)
  {
    if o + |a| + |b| <= |s| {
      var g := s[o..o + |a + b|];
      assert g[..|a|] == s[o..o + |a|] && g[|a|..] == s[o + |a|..o + |a| + |b|];
      assert g == g[..|a|] + g[|a|..];
      assert (a + b)[..|a|] == a && (a + b)[|a|..] == b;
    }
  }

  lemma Occurs2(s: Str, o: nat, a: Byte, b: Byte)
    requires Occurs(s, o, [a, b])
    ensures o + 2 <= |s| && s[o] == a && s[o + 1] == b
  {
    var g := s[o..o + 2];
    assert g[0] == s[o] && g[1] == s[o + 1];
  }

  lemma Occurs4(s: Str, o: nat, a: Byte, b: Byte, c: Byte, d: Byte)
    requires Occurs(s, o, [a, b, c, d])
    ensures o + 4 <= |s| && s[o] == a && s[o + 1] == b && s[o + 2] == c && s[o + 3] == d
  {
    assert [a, b, c, d] == [a, b] + [c, d];
    OccursConcat(s, o, [a, b], [c, d]);
    Occurs2(s, o, a, b);
    Occurs2(s, o + 2, c, d);
  }

  function Zeros(n: nat): (z: Str)
    ensures |z| == n
    ensures forall i :: 0 <= i < n ==> z[i] == 0
  {
    seq(n, _ => 0)
  }

  /** Lexicographic `<` of two byte vectors. */
  predicate Less(a: Str, b: Str) {
    if b == [] then false
    else if a == [] then true
    else if a[0] != b[0] then a[0] < b[0]
    else Less(a[1..], b[1..])
  }

  /** `Less` is a strict total order on unequal strings. */
  lemma {:induction false} LessTotal(a: Str, b: Str)
    ensures !(Less(a, b) && Less(b, a))
    ensures Less(a, b) || Less(b, a) <==> a != b
  {
    if a == [] || b == [] {
    } else {
      LessTotal(a[1..], b[1..]);
      assert a == [a[0]] + a[1..] && b == [b[0]] + b[1..];
    }
  }

  /** The order of a dictionary: up to some index the strings agree, and there `a` ends or
      has the smaller byte. */
  lemma {:induction false} LessIff(a: Str, b: Str)
    ensures Less(a, b) <==> exists i: nat :: SmallerAt(a, b, i)
  {
    if b == [] {
    } else if a == [] {
      assert SmallerAt(a, b, 0);
    } else if a[0] != b[0] {
      assert SmallerAt(a, b, 0) <==> a[0] < b[0];
      forall i: nat { SameFirst(a, b, i); }
    } else {
      LessIff(a[1..], b[1..]);
      forall i: nat
        ensures SmallerAt(a, b, i + 1) <==> SmallerAt(a[1..], b[1..], i)
      {
        SmallerLater(a, b, i);
      }
      assert forall i: nat :: i > 0 && SmallerAt(a, b, i) ==> SmallerAt(a[1..], b[1..], i - 1);
    }
  }

  predicate SmallerAt(a: Str, b: Str, i: nat) {
    i <= |a| && i < |b| && a[..i] == b[..i] && (i < |a| ==> a[i] < b[i])
  }

  lemma SameFirst(a: Str, b: Str, i: nat)
    requires a != [] && b != []
    ensures i > 0 && SmallerAt(a, b, i) ==> a[0] == b[0]
  {
    var x, y := if i <= |a| then a[..i] else a, if i <= |b| then b[..i] else b;
    assert i > 0 ==> x[0] == a[0] && y[0] == b[0];
  }

  lemma SmallerLater(a: Str, b: Str, i: nat)
    requires a != [] && b != [] && a[0] == b[0]
    ensures SmallerAt(a, b, i + 1) <==> SmallerAt(a[1..], b[1..], i)
  {
    if i + 1 <= |a| && i + 1 <= |b| {
      assert a[..i + 1] == [a[0]] + a[1..][..i] && b[..i + 1] == [b[0]] + b[1..][..i];
      assert a[1..][..i] == a[..i + 1][1..] && b[1..][..i] == b[..i + 1][1..];
    }
  }

  /** Concatenation of a list of strings. */
  function Flatten(ss: seq<Str>): Str {
    if ss == [] then [] else ss[0] + Flatten(ss[1..])
  }

  function Pow2(n: nat): (p: nat)
    ensures p > 0
  {
    if n == 0 then 1 else 2 * Pow2(n - 1)
  }

  /** Bitwise exclusive or of the low `n` bits. */
  function XorBits(a: nat, b: nat, n: nat): (r: nat)
    ensures r < Pow2(n)
  {
    if n == 0 then 0 else (if a % 2 == b % 2 then 0 else 1) + 2 * XorBits(a / 2, b / 2, n - 1)
  }

  /** The `^` of two bytes. */
  function Xor(a: Byte, b: Byte): Byte {
    assert Pow2(8) == 256;
    XorBits(a, b, 8)
  }

  /** Bit `k` of a number. */
  predicate Bit(n: nat, k: nat) { if k == 0 then n % 2 == 1 else Bit(n / 2, k - 1) }

  lemma {:induction false} XorBitsMeaning(a: nat, b: nat, n: nat, k: nat)
    ensures Bit(XorBits(a, b, n), k) <==> k < n && Bit(a, k) != Bit(b, k)
    decreases n, k
  {
    if n == 0 {
      ZeroBits(k);
    } else {
      assert XorBits(a, b, n) / 2 == XorBits(a / 2, b / 2, n - 1);
      if k > 0 { XorBitsMeaning(a / 2, b / 2, n - 1, k - 1); }
    }
  }

  lemma {:induction false} ZeroBits(k: nat)
    ensures !Bit(0, k)
  {
    if k > 0 { ZeroBits(k - 1); }
  }

  lemma {:induction false} SmallBits(a: nat, n: nat, k: nat)
    requires a < Pow2(n) && n <= k
    ensures !Bit(a, k)
  {
    if n == 0 { ZeroBits(k); } else { SmallBits(a / 2, n - 1, k - 1); }
  }

  /** Exactly the bits in which the two bytes differ are set. */
  lemma XorMeaning(a: Byte, b: Byte, k: nat)
    ensures Bit(Xor(a, b), k) <==> Bit(a, k) != Bit(b, k)
  {
    XorBitsMeaning(a, b, 8, k);
    assert Pow2(8) == 256;
    if k >= 8 {
      SmallBits(a, 8, k);
      SmallBits(b, 8, k);
    }
  }

  /** Zero changes nothing, and a byte cancels itself and no other. */
  lemma XorUnit(a: Byte, b: Byte)
    ensures Xor(a, 0) == a
    ensures Xor(a, b) == 0 <==> a == b
  {
    XorBitsZero(a, 8);
    XorBitsEqual(a, b, 8);
    assert Pow2(8) == 256;
  }

  lemma {:induction false} XorBitsZero(a: nat, n: nat)
    requires a < Pow2(n)
    ensures XorBits(a, 0, n) == a
  {
    if n > 0 { XorBitsZero(a / 2, n - 1); }
  }

  lemma {:induction false} XorBitsEqual(a: nat, b: nat, n: nat)
    requires a < Pow2(n) && b < Pow2(n)
    ensures XorBits(a, b, n) == 0 <==> a == b
  {
    if n > 0 { XorBitsEqual(a / 2, b / 2, n - 1); }
  }

  lemma {:induction false} XorBitsInvolution(a: nat, b: nat, n: nat)
    requires a < Pow2(n)
    ensures XorBits(XorBits(a, b, n), b, n) == a
  {
    if n > 0 {
      var x := XorBits(a / 2, b / 2, n - 1);
      assert XorBits(a, b, n) / 2 == x;
      XorBitsInvolution(a / 2, b / 2, n - 1);
    }
  }

  /** Applying the same key byte twice gives the byte back. */
  lemma XorInvolution(a: Byte, b: Byte)
    ensures Xor(Xor(a, b), b) == a
  {
    assert Pow2(8) == 256;
    XorBitsInvolution(a, b, 8);
  }
}
