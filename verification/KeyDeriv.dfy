/** `CHipKeyDeriv`: CMAC-based extract and expand, and the split of the key material by
    the order of the two HITs. */
module KeyDeriv {
  import opened Bytes
  import opened Crypto

  const EXTRACT: Str := [67, 75, 68, 70, 45, 69, 120, 116, 114, 97, 99, 116]  // "CKDF-Extract"
  const EXPAND: Str := [67, 75, 68, 70, 45, 69, 120, 112, 97, 110, 100]       // "CKDF-Expand"

  datatype Keys = Keys(iek: Str, iik: Str, rek: Str, rik: Str)

  /** The two HITs, smaller one first. */
  function Ordered(a: Str, b: Str): Str { if Less(a, b) then a + b else b + a }

  function Extract(c: Suite, a: Str, b: Str, randomI: Str, secret: Str): Block {
    c.cmac(randomI, secret + Ordered(a, b) + EXTRACT)
  }

  /** Output of expansion round `n`, chained through the previous output; the round
      number is fed as its lowest byte. */
  function Round(c: Suite, prk: Str, hits: Str, n: nat): Block {
    c.cmac(prk, (if n == 0 then [] else Round(c, prk, hits, n - 1)) + hits + EXPAND + [Lo(n)])
  }

  /** The first `n` rounds of key material. */
  function Keymat(c: Suite, prk: Str, hits: Str, n: nat): (k: Str)
    ensures |k| == BLOCK * n
  {
    if n == 0 then [] else Keymat(c, prk, hits, n - 1) + Round(c, prk, hits, n - 1)
  }

  function Material(c: Suite, a: Str, b: Str, randomI: Str, secret: Str): (k: Str)
    ensures |k| == 64
  {
    Keymat(c, Extract(c, a, b, randomI, secret), Ordered(a, b), 4)
  }

  /** The keys of `DeriveKeys(a, b, randomI, secret)` on a fresh object. */
  function Derive(c: Suite, a: Str, b: Str, randomI: Str, secret: Str): (k: Keys)
    ensures |k.iek| == |k.iik| == |k.rek| == |k.rik| == 16
  {
    Split(Material(c, a, b, randomI, secret), Less(b, a))
  }

  /** The split at 16, 32 and 48, whatever follows. */
  function Split(km: Str, first: bool): (k: Keys)
    requires |km| >= 64
    ensures |k.iek| == |k.rek| == 16
    ensures |km| == 64 ==> |k.iik| == |k.rik| == 16
  {
    if first then Keys(km[..16], km[16..32], km[32..48], km[48..])
    else Keys(km[32..48], km[48..], km[..16], km[16..32])
  }

  /** The keys seen from the other end. */
  function Swapped(k: Keys): Keys { Keys(k.rek, k.rik, k.iek, k.iik) }

  class HipKeyDeriv {
    var iek: Str
    var iik: Str
    var rek: Str
    var rik: Str
    /** Bytes of key material reserved: twice both key lengths. */
    const capacity: nat

    constructor (ekLen: nat, ikLen: nat)
      ensures iek == iik == rek == rik == []
      ensures capacity == 2 * ekLen + 2 * ikLen
    {
      iek, iik, rek, rik := [], [], [], [];
      capacity := 2 * ekLen + 2 * ikLen;
    }

    /** Appends the derived keys to the four key fields; 64 reserved bytes give `Derive`. */
    method DeriveKeys(c: Suite, a: Str, b: Str, randomI: Str, secret: Str)
      requires capacity >= 64 && capacity % BLOCK == 0
      modifies this
      ensures var km := Keymat(c, Extract(c, a, b, randomI, secret), Ordered(a, b), capacity / BLOCK);
              var k := Split(km, Less(b, a));
              && iek == old(iek) + k.iek && iik == old(iik) + k.iik
              && rek == old(rek) + k.rek && rik == old(rik) + k.rik
              && |km| == capacity && Chained(c, Extract(c, a, b, randomI, secret), Ordered(a, b), km)
    {
      hide Keymat, Less, Chained;
      var fed := FeedHits(secret, a, b);
      var prk := c.cmac(randomI, fed + EXTRACT);
      var keymat := Expand(c, prk, a, b);
      if Less(b, a) {
        iek := iek + keymat[..16];
        iik := iik + keymat[16..32];
        rek := rek + keymat[32..48];
        rik := rik + keymat[48..];
      } else {
        rek := rek + keymat[..16];
        rik := rik + keymat[16..32];
        iek := iek + keymat[32..48];
        iik := iik + keymat[48..];
      }
    }

    /** Feeds the smaller HIT, then the larger one. */
    method FeedHits(start: Str, a: Str, b: Str) returns (fed: Str)
      ensures fed == start + Ordered(a, b)
    {
      fed := start;
      if Less(a, b) {
        fed := fed + a;
        fed := fed + b;
      } else {
        fed := fed + b;
        fed := fed + a;
      }
    }

    /** The expand loop runs until the reserved bytes are used up, which whole blocks do
        without making the vector grow: 64 bytes take four rounds. */
    method Expand(c: Suite, prk: Str, a: Str, b: Str) returns (keymat: Str)
      requires capacity % BLOCK == 0
      ensures keymat == Keymat(c, prk, Ordered(a, b), capacity / BLOCK)
      ensures |keymat| == capacity && Chained(c, prk, Ordered(a, b), keymat)
    {
      hide Ordered, Chained;
      ghost var hits := Ordered(a, b);
      keymat := [];
      var rrr: Str := [];
      var offset, i := 0, 0;
      while offset < capacity
        invariant 0 <= i <= capacity / BLOCK && offset == BLOCK * i
        invariant keymat == Keymat(c, prk, hits, i)
        invariant rrr == if i == 0 then [] else Round(c, prk, hits, i - 1)
        decreases capacity - offset
      {
        var fed := FeedHits(rrr, a, b);
        rrr := c.cmac(prk, fed + EXPAND + [Lo(i)]);
        keymat := keymat + rrr;
        offset := offset + |rrr|;
        i := i + 1;
      }
      KeymatIff(c, prk, hits, capacity / BLOCK, keymat);
    }
  }

  /** What every handler does: a fresh object for two 16-byte key pairs, used once. */
  method FreshKeys(c: Suite, a: Str, b: Str, randomI: Str, secret: Str) returns (k: Keys)
    ensures k == Derive(c, a, b, randomI, secret)
  {
    var d := new HipKeyDeriv(16, 16);
    d.DeriveKeys(c, a, b, randomI, secret);
    hide Derive;
    k := Keys(d.iek, d.iik, d.rek, d.rik);
    assert forall s: Str :: [] + s == s;
  }

  lemma MaterialSymmetric(c: Suite, a: Str, b: Str, randomI: Str, secret: Str)
    ensures Material(c, a, b, randomI, secret) == Material(c, b, a, randomI, secret)
  {
    LessTotal(a, b);
    assert Ordered(a, b) == Ordered(b, a);
  }

  /** The two ends call `DeriveKeys` with the HITs in opposite order. What one calls
      initiator keys the other calls responder keys, exactly when the HITs differ or the
      halves of the material happen to be equal. */
  lemma DeriveSymmetric(c: Suite, a: Str, b: Str, randomI: Str, secret: Str)
    ensures Derive(c, a, b, randomI, secret) == Swapped(Derive(c, b, a, randomI, secret)) <==>
            a != b || Material(c, a, b, randomI, secret)[..32] == Material(c, a, b, randomI, secret)[32..]
  {
    MaterialSymmetric(c, a, b, randomI, secret);
    LessTotal(a, b);
    var km := Material(c, a, b, randomI, secret);
    hide Material;
    SplitHalves(km);
  }

  lemma SplitHalves(km: Str)
    requires |km| == 64
    ensures Split(km, true) == Swapped(Split(km, false)) && Split(km, false) == Swapped(Split(km, true))
    ensures Split(km, false) == Swapped(Split(km, false)) <==> km[..32] == km[32..]
  {
    assert km[..16] == km[..32][..16] && km[16..32] == km[..32][16..];
    assert km[32..48] == km[32..][..16] && km[48..] == km[32..][16..];
    assert km[..32] == km[..16] + km[16..32] && km[32..] == km[32..48] + km[48..];
  }

  // ---------------------------------------------------------------- recurrence

  /** The bytes of a label. */
  function Ascii(text: string): Str {
    seq(|text|, i requires 0 <= i < |text| => text[i] as int % 256)
  }

  /** Block `i` of some material. */
  function BlockAt(km: Str, i: nat): Str
    requires BLOCK * (i + 1) <= |km|
  {
    km[BLOCK * i..BLOCK * (i + 1)]
  }

  /** The MAC of what is fed for block `i`: the block before it, if there is one, the HITs,
      the label and the block's number. */
  predicate ChainedAt(c: Suite, prk: Str, hits: Str, km: Str, i: nat)
    requires BLOCK * (i + 1) <= |km|
  {
    var before := if i == 0 then [] else BlockAt(km, i - 1);
    BlockAt(km, i) == c.cmac(prk, before + hits + Ascii("CKDF-Expand") + [i % 256])
  }

  ghost predicate Chained(c: Suite, prk: Str, hits: Str, km: Str) {
    forall i: nat :: BLOCK * (i + 1) <= |km| ==> ChainedAt(c, prk, hits, km, i)
  }

  lemma Labels()
    ensures EXTRACT == Ascii("CKDF-Extract") && EXPAND == Ascii("CKDF-Expand")
  {
  }

  /** The material of `n` rounds is the one string of that length whose blocks are chained. */
  lemma {:induction false} KeymatIff(c: Suite, prk: Str, hits: Str, n: nat, km: Str)
    requires |km| == BLOCK * n
    ensures km == Keymat(c, prk, hits, n) <==> Chained(c, prk, hits, km)
  {
    hide Round, Ascii, Chained, ChainedAt;
    if n == 0 {
      ChainedNothing(c, prk, hits, km);
    } else {
      var m := n - 1;
      var front := km[..BLOCK * m];
      KeymatIff(c, prk, hits, m, front);
      ChainedMore(c, prk, hits, km, m);
      RoundAt(c, prk, hits, km, m);
      assert km == front + BlockAt(km, m);
      LastBlockIff(front, BlockAt(km, m), Keymat(c, prk, hits, m), Round(c, prk, hits, m));
    }
  }

  lemma ChainedNothing(c: Suite, prk: Str, hits: Str, km: Str)
    requires km == []
    ensures Chained(c, prk, hits, km)
  {
  }

  lemma LastBlockIff(front: Str, last: Str, front': Str, last': Str)
    requires |front| == |front'|
    ensures front + last == front' + last' <==> front == front' && last == last'
  {
    assert (front + last)[..|front|] == front && (front' + last')[..|front|] == front';
    assert (front + last)[|front|..] == last && (front' + last')[|front|..] == last';
  }

  lemma ChainedMore(c: Suite, prk: Str, hits: Str, km: Str, m: nat)
    requires |km| == BLOCK * (m + 1)
    ensures Chained(c, prk, hits, km) <==> Chained(c, prk, hits, km[..BLOCK * m]) && ChainedAt(c, prk, hits, km, m)
  {
    var front := km[..BLOCK * m];
    forall i: nat | i < m
      ensures BLOCK * (i + 1) <= |front| && (ChainedAt(c, prk, hits, front, i) <==> ChainedAt(c, prk, hits, km, i))
    {
      assert BlockAt(front, i) == BlockAt(km, i);
      assert i > 0 ==> BlockAt(front, i - 1) == BlockAt(km, i - 1);
    }
    hide ChainedAt;
  }

  /** After the rounds so far, a block is chained exactly when it is the next round. */
  lemma RoundAt(c: Suite, prk: Str, hits: Str, km: Str, m: nat)
    requires |km| == BLOCK * (m + 1)
    ensures km[..BLOCK * m] == Keymat(c, prk, hits, m) ==>
              (ChainedAt(c, prk, hits, km, m) <==> BlockAt(km, m) == Round(c, prk, hits, m))
  {
    Labels();
    HiLo(m);
    if m > 0 && km[..BLOCK * m] == Keymat(c, prk, hits, m) {
      assert BlockAt(km, m - 1) == km[..BLOCK * m][BLOCK * (m - 1)..];
      assert BlockAt(km, m - 1) == Round(c, prk, hits, m - 1);
    }
    hide Ascii, Lo;
  }

  /** The recurrence on the derived keys themselves: with the MAC of the secret, the smaller
      HIT, the larger one and the label as key, each key is the MAC of the key before it, the
      HITs, the label and its number; the side with the larger HIT comes first. */
  lemma DeriveRecurrence(c: Suite, a: Str, b: Str, randomI: Str, secret: Str)
    ensures var k := Derive(c, a, b, randomI, secret);
            var hits := if Less(a, b) then a + b else b + a;
            var prk := c.cmac(randomI, secret + hits + Ascii("CKDF-Extract"));
            var expand := Ascii("CKDF-Expand");
            var first, second := if Less(b, a) then (k.iek, k.iik) else (k.rek, k.rik),
                                 if Less(b, a) then (k.rek, k.rik) else (k.iek, k.iik);
            && first.0 == c.cmac(prk, hits + expand + [0])
            && first.1 == c.cmac(prk, first.0 + hits + expand + [1])
            && second.0 == c.cmac(prk, first.1 + hits + expand + [2])
            && second.1 == c.cmac(prk, second.0 + hits + expand + [3])
  {
    var hits := if Less(a, b) then a + b else b + a;
    var prk := c.cmac(randomI, secret + hits + Ascii("CKDF-Extract"));
    Labels();
    var km := Material(c, a, b, randomI, secret);
    assert km == Keymat(c, prk, hits, 4);
    hide Ascii, Less, Keymat, Material;
    KeymatIff(c, prk, hits, 4, km);
    FourBlocks(c, prk, hits, km);
  }

  lemma FourBlocks(c: Suite, prk: Str, hits: Str, km: Str)
    requires |km| == 64 && Chained(c, prk, hits, km)
    ensures var expand := Ascii("CKDF-Expand");
            && km[..16] == c.cmac(prk, hits + expand + [0])
            && km[16..32] == c.cmac(prk, km[..16] + hits + expand + [1])
            && km[32..48] == c.cmac(prk, km[16..32] + hits + expand + [2])
            && km[48..] == c.cmac(prk, km[32..48] + hits + expand + [3])
  {
    hide Ascii;
    assert BlockAt(km, 0) == km[..16] && BlockAt(km, 1) == km[16..32];
    assert BlockAt(km, 2) == km[32..48] && BlockAt(km, 3) == km[48..];
    hide BlockAt;
    assert ChainedAt(c, prk, hits, km, 0) && ChainedAt(c, prk, hits, km, 1);
    assert ChainedAt(c, prk, hits, km, 2) && ChainedAt(c, prk, hits, km, 3);
    assert [] + hits == hits;
  }

  /** The four keys partition the material, the side with the larger HIT first. */
  lemma KeysPartition(c: Suite, a: Str, b: Str, randomI: Str, secret: Str)
    ensures var k, km := Derive(c, a, b, randomI, secret), Material(c, a, b, randomI, secret);
            km == if Less(b, a) then k.iek + k.iik + k.rek + k.rik else k.rek + k.rik + k.iek + k.iik
  {
    var km := Material(c, a, b, randomI, secret);
    hide Material;
    assert km == km[..16] + km[16..32] + km[32..48] + km[48..];
  }
}
