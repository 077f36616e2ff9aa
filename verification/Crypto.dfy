/** The cryptographic primitives, as opaque functions with the few laws the protocol
    relies on. Everything stated about a `Suite` holds for every suite with these laws. */
module Crypto {
  import opened Bytes

  const BLOCK := 16

  type Block = s: Str | |s| == BLOCK witness Zeros(BLOCK)

  /** The bytes of a public key in a HOST_ID: two bytes naming the curve, then the point. */
  type PublicKey = s: Str | 2 <= |s| <= 4096 witness Zeros(2)

  datatype Suite = Suite(
    aes: (Str, Str) -> Block,      // key, block
    aesInverse: (Str, Str) -> Block,
    cmac: (Str, Str) -> Block,     // key, all blocks fed to the context
    hostId: Str -> PublicKey,      // private key to its public key
    ecdh: (Str, Str) -> Str)       // peer's public key, own private key
  {
    /** The block cipher is a bijection for each key; Diffie-Hellman commutes. */
    ghost predicate Lawful() {
      && (forall k: Str, b: Block :: aesInverse(k, aes(k, b)) == b)
      && (forall x: Str, y: Str :: ecdh(hostId(x), y) == ecdh(hostId(y), x))
    }
  }

  /** Bytewise exclusive or of two blocks. */
  function XorBlock(a: Block, b: Block): (c: Block)
    ensures forall i :: 0 <= i < BLOCK ==> c[i] == Xor(a[i], b[i])
  {
    seq(BLOCK, i requires 0 <= i < BLOCK => Xor(a[i], b[i]))
  }

  lemma XorBlockInvolution(a: Block, b: Block)
    ensures XorBlock(XorBlock(a, b), b) == a
  {
    forall i | 0 <= i < BLOCK ensures XorBlock(XorBlock(a, b), b)[i] == a[i] {
      XorInvolution(a[i], b[i]);
    }
  }

  /** `CAesCbc::Encrypt` and `Decrypt` on whole blocks. */
  function CbcEncrypt(c: Suite, key: Str, iv: Block, plain: Str): (r: Str)
    requires |plain| % BLOCK == 0
    ensures |r| == |plain|
    decreases |plain|
  {
    if plain == [] then []
    else
      var block := c.aes(key, XorBlock(plain[..BLOCK], iv));
      block + CbcEncrypt(c, key, block, plain[BLOCK..])
  }

  function CbcDecrypt(c: Suite, key: Str, iv: Block, cipher: Str): (r: Str)
    requires |cipher| % BLOCK == 0
    ensures |r| == |cipher|
    decreases |cipher|
  {
    if cipher == [] then []
    else
      XorBlock(c.aesInverse(key, cipher[..BLOCK]), iv)
      + CbcDecrypt(c, key, cipher[..BLOCK], cipher[BLOCK..])
  }

  lemma {:induction false} CbcRoundTrip(c: Suite, key: Str, iv: Block, plain: Str)
    requires c.Lawful() && |plain| % BLOCK == 0
    ensures CbcDecrypt(c, key, iv, CbcEncrypt(c, key, iv, plain)) == plain
    decreases |plain|
  {
    if plain != [] {
      var first: Block := plain[..BLOCK];
      var block := c.aes(key, XorBlock(first, iv));
      var cipher := CbcEncrypt(c, key, iv, plain);
      assert cipher[..BLOCK] == block && cipher[BLOCK..] == CbcEncrypt(c, key, block, plain[BLOCK..]);
      XorBlockInvolution(first, iv);
      CbcRoundTrip(c, key, block, plain[BLOCK..]);
    }
  }

  /** The MAC tells these two inputs apart. No MAC tells all inputs apart, as it has 16 bytes. */
  predicate ToldApart(c: Suite, key: Str, fed: Str, other: Str) {
    fed != other ==> c.cmac(key, fed) != c.cmac(key, other)
  }

  // ---------------------------------------------------------------- CBC by blocks

  /** Block `i` of a string. */
  function NthBlock(s: Str, i: nat): Block
    requires BLOCK * (i + 1) <= |s|
  {
    s[BLOCK * i..BLOCK * (i + 1)]
  }

  lemma LaterBlock(s: Str, i: nat)
    requires i > 0 && BLOCK * (i + 1) <= |s|
    ensures NthBlock(s[BLOCK..], i - 1) == NthBlock(s, i)
  {
  }

  /** Each block is the cipher of its plain block, combined with the cipher block before it,
      the first one with the vector. */
  lemma {:induction false} CbcChains(c: Suite, key: Str, iv: Block, plain: Str, i: nat)
    requires |plain| % BLOCK == 0 && BLOCK * (i + 1) <= |plain|
    ensures var r := CbcEncrypt(c, key, iv, plain);
            var before := if i == 0 then iv else NthBlock(r, i - 1);
            NthBlock(r, i) == c.aes(key, XorBlock(NthBlock(plain, i), before))
    decreases i
  {
    var block := c.aes(key, XorBlock(plain[..BLOCK], iv));
    var rest := CbcEncrypt(c, key, block, plain[BLOCK..]);
    var r := CbcEncrypt(c, key, iv, plain);
    assert r == block + rest && r[BLOCK..] == rest && NthBlock(r, 0) == block;
    if i > 0 {
      CbcChains(c, key, block, plain[BLOCK..], i - 1);
      LaterBlock(plain, i);
      LaterBlock(r, i);
      if i > 1 { LaterBlock(r, i - 1); }
    }
  }

  // ---------------------------------------------------------------- an example

  /** Primitives with the laws, for examples: a cipher that changes nothing, and a MAC whose
      second byte adds up a byte of the key and two of what is fed. */
  function Toy(): Suite {
    Suite((k: Str, b: Str) => AsBlock(b), (k: Str, b: Str) => AsBlock(b), ToyMac, (x: Str) => Zeros(2),
          (x: Str, y: Str) => [])
  }

  function ToyMac(key: Str, fed: Str): Block {
    [0, (ByteAt(key, 1) + ByteAt(fed, 0) + ByteAt(fed, 16)) % 256] + Zeros(14)
  }

  function ByteAt(s: Str, i: nat): nat { if i < |s| then s[i] else 0 }

  function AsBlock(b: Str): Block { if |b| == BLOCK then b else Zeros(BLOCK) }

  /** So the laws can be met. */
  lemma ToyIsLawful()
    ensures Toy().Lawful()
  {
  }
}
