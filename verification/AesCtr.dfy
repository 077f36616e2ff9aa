/** `CAesCtr`: counter mode with a 32-bit big-endian block counter at the end of the
    initial vector (NIST SP 800-38A, section 6.5 and appendix B.1). */
module AesCtr {
  import opened Bytes
  import opened Crypto

  const PERIOD := 0x1_0000_0000

  /** The 32-bit big-endian encoding of `n` modulo 2^32. */
  function Be32(n: nat): (s: Str)
    ensures |s| == 4
  {
    [n / 0x100_0000 % 256, n / 0x1_0000 % 256, n / 0x100 % 256, n % 256]
  }

  /** The first twelve bytes of the initial vector, which the counter never touches. */
  type Nonce = s: Str | |s| == 12 witness Zeros(12)

  function CounterBlock(nonce: Nonce, n: nat): Block { nonce + Be32(n) }

  /** Reference keystream: byte `p` comes from block counter 1 + p/16. */
  function KeyStream(c: Suite, key: Str, nonce: Nonce, p: nat): Byte {
    c.aes(key, CounterBlock(nonce, 1 + p / BLOCK))[p % BLOCK]
  }

  /** Reference cipher: `s` XORed with the keystream from position `p` on. */
  function Ctr(c: Suite, key: Str, nonce: Nonce, p: nat, s: Str): (r: Str)
    ensures |r| == |s|
    ensures forall i :: 0 <= i < |s| ==> r[i] == Xor(s[i], KeyStream(c, key, nonce, p + i))
  {
    seq(|s|, i requires 0 <= i < |s| => Xor(s[i], KeyStream(c, key, nonce, p + i)))
  }

  class CAesCtr {
    const c: Suite
    const key: Str
    var counter: Str
    var cipher: Str
    var cur: nat
    ghost const nonce: Nonce
    /** Number of bytes processed so far. */
    ghost var pos: nat

    ghost predicate Valid()
      reads this
    {
      && |key| == BLOCK
      && counter == CounterBlock(nonce, 1 + pos / BLOCK)
      && cipher == c.aes(key, counter)
      && cur == pos % BLOCK
    }

    /** Clears the last four bytes of the vector and generates the first block. A key of
        the wrong size leaves the object without a counter and unusable. */
    constructor (c: Suite, key: Str, iv: Str)
      requires |iv| == BLOCK
      ensures this.c == c && this.key == key
      ensures |key| == BLOCK ==> Valid() && nonce == iv[..12] && pos == 0
    {
      this.c, this.key, this.nonce := c, key, iv[..12];
      counter, cipher, cur, pos := [], [], 0, 0;
      new;
      if |key| == BLOCK {
        counter := iv;
        var i := 1;
        while i <= 4
          invariant 1 <= i <= 5 && |counter| == BLOCK && counter[..12] == iv[..12]
          invariant forall k :: BLOCK - i < k < BLOCK ==> counter[k] == 0
          invariant pos == 0
        {
          counter := counter[BLOCK - i := 0];
          i := i + 1;
        }
        assert counter == nonce + [counter[12], counter[13], counter[14], counter[15]];
        assert counter == CounterBlock(nonce, 0);
        Generate(0);
      }
    }

    /** Adds one to the last four bytes with carry, and encrypts the new counter. */
    method Generate(ghost n: nat)
      requires |key| == BLOCK && counter == CounterBlock(nonce, n)
      modifies this`counter, this`cipher, this`cur
      ensures counter == CounterBlock(nonce, n + 1)
      ensures cipher == c.aes(key, counter) && cur == 0
    {
      ghost var before, settled := counter, false;
      var i := 1;
      while i <= 4
        invariant 1 <= i <= 5 && !settled && |counter| == BLOCK
        invariant forall k :: 0 <= k < BLOCK ==>
                    if k > BLOCK - i then counter[k] == 0 && before[k] == 0xFF else counter[k] == before[k]
      {
        if counter[BLOCK - i] == 0xFF {
          counter := counter[BLOCK - i := 0];
          i := i + 1;
          continue;
        }
        counter := counter[BLOCK - i := counter[BLOCK - i] + 1];
        settled := true;
        break;
      }
      assert settled <==> i <= 4;
      assert counter[..12] == nonce && before[12..] == Be32(n);
      CarryAddsOne(before[12..], counter[12..], i);
      NextEncoding(n, counter[12..]);
      assert counter == counter[..12] + counter[12..];
      cipher := c.aes(key, counter);
      cur := 0;
    }

    /** XORs the input with the keystream, one byte at a time, and moves on. */
    method Encrypt(plain: Str) returns (out: Str)
      requires Valid()
      modifies this
      ensures Valid() && pos == old(pos) + |plain|
      ensures out == Ctr(c, key, nonce, old(pos), plain)
    {
      hide Valid, KeyStream, Xor, CounterBlock;
      out := [];
      for i := 0 to |plain|
        invariant Valid() && pos == old(pos) + i
        invariant |out| == i
        invariant forall k :: 0 <= k < i ==> out[k] == Xor(plain[k], KeyStream(c, key, nonce, old(pos) + k))
      {
        var x := EncryptByte(plain[i]);
        out := out + [x];
      }
    }

    /** The body of the loop. */
    method EncryptByte(b: Byte) returns (x: Byte)
      requires Valid()
      modifies this
      ensures Valid() && pos == old(pos) + 1
      ensures x == Xor(b, KeyStream(c, key, nonce, old(pos)))
    {
      hide Be32, Xor;
      assert cipher[cur] == KeyStream(c, key, nonce, pos);
      x := Xor(b, cipher[cur]);
      cur := cur + 1;
      NextPosition(pos);
      if cur == |cipher| {
        Generate(1 + pos / BLOCK);
      }
      pos := pos + 1;
    }
  }

  lemma NextPosition(p: nat)
    ensures if p % BLOCK == BLOCK - 1 then (p + 1) / BLOCK == p / BLOCK + 1 && (p + 1) % BLOCK == 0
            else (p + 1) / BLOCK == p / BLOCK && (p + 1) % BLOCK == p % BLOCK + 1
  {
  }

  /** The number that four bytes encode. */
  function Value(s: Str): nat
    requires |s| == 4
  {
    0x100_0000 * s[0] as nat + 0x1_0000 * s[1] as nat + 0x100 * s[2] as nat + s[3] as nat
  }

  lemma Be32Value(n: nat)
    ensures Value(Be32(n)) == n % PERIOD
  {
    var h := n / 0x100;
    var hh := h / 0x100;
    var hhh := hh / 0x100;
    Quotients(n, h, hh, hhh);
    Digits(n, h, hh, hhh);
    Remainder(n, hhh / 0x100, Value(Be32(n)));
  }

  lemma Quotients(n: nat, h: nat, hh: nat, hhh: nat)
    requires h == n / 0x100 && hh == h / 0x100 && hhh == hh / 0x100
    ensures n / 0x1_0000 == hh && n / 0x100_0000 == hhh
  {
  }

  lemma Digits(n: nat, h: nat, hh: nat, hhh: nat)
    requires h == n / 0x100 && hh == h / 0x100 && hhh == hh / 0x100
    ensures n == PERIOD * (hhh / 0x100) + 0x100_0000 * (hhh % 0x100) + 0x1_0000 * (hh % 0x100)
                 + 0x100 * (h % 0x100) + n % 0x100
  {
  }

  lemma Remainder(n: nat, q: nat, v: nat)
    requires n == PERIOD * q + v && v < PERIOD
    ensures n % PERIOD == v
  {
  }

  lemma ValueInjective(s: Str, t: Str)
    requires |s| == |t| == 4 && Value(s) == Value(t)
    ensures s == t
  {
    assert s[0] == t[0] && s[1] == t[1] && s[2] == t[2] && s[3] == t[3];
  }

  /** `t` is `s` with a run of 0xFF bytes at the end cleared and, unless that was all of
      them, the byte before the run increased by one. */
  predicate Carried(s: Str, t: Str, i: nat)
    requires |s| == |t| == 4
  {
    && 1 <= i <= 5
    && (forall k :: 0 <= k < 4 && k > 4 - i ==> t[k] == 0 && s[k] == 0xFF)
    && (forall k :: 0 <= k < 4 - i ==> t[k] == s[k])
    && (i <= 4 ==> t[4 - i] as nat == s[4 - i] as nat + 1)
  }

  lemma CarryAddsOne(s: Str, t: Str, i: nat)
    requires |s| == |t| == 4 && Carried(s, t, i)
    ensures Value(t) == (Value(s) + 1) % PERIOD
  {
    if i == 1 {
    } else if i == 2 {
      assert t[3] == 0 && s[3] == 0xFF;
    } else if i == 3 {
      assert t[3] == 0 && s[3] == 0xFF && t[2] == 0 && s[2] == 0xFF;
    } else if i == 4 {
      assert t[3] == 0 && s[3] == 0xFF && t[2] == 0 && s[2] == 0xFF && t[1] == 0 && s[1] == 0xFF;
    } else {
      assert t[3] == 0 && s[3] == 0xFF && t[2] == 0 && s[2] == 0xFF && t[1] == 0 && s[1] == 0xFF;
      assert t[0] == 0 && s[0] == 0xFF;
    }
  }

  /** Four counter bytes increased by one are the encoding of the next number. */
  lemma NextEncoding(n: nat, t: Str)
    requires |t| == 4 && Value(t) == (Value(Be32(n)) + 1) % PERIOD
    ensures t == Be32(n + 1)
  {
    Be32Value(n);
    Be32Value(n + 1);
    hide Be32, Value;
    ModNext(n);
    ValueInjective(t, Be32(n + 1));
  }

  lemma ModNext(n: nat)
    ensures (n % PERIOD + 1) % PERIOD == (n + 1) % PERIOD
  {
  }

  // ---------------------------------------------------------------- laws

  /** Byte `p` of the stream is byte `p` mod 16 of the cipher of the nonce followed by the
      four bytes that encode 1 + p/16 modulo 2^32, whatever way they were computed. */
  lemma KeyStreamAt(c: Suite, key: Str, nonce: Nonce, p: nat, s: Str)
    requires |s| == 4 && Value(s) == (1 + p / BLOCK) % PERIOD
    ensures KeyStream(c, key, nonce, p) == c.aes(key, nonce + s)[p % BLOCK]
  {
    Be32Value(1 + p / BLOCK);
    hide Be32;
    ValueInjective(s, Be32(1 + p / BLOCK));
  }

  /** Two calls in a row encrypt like one call on the concatenation, wherever the first
      call stopped. */
  lemma CtrSplit(c: Suite, key: Str, nonce: Nonce, p: nat, a: Str, b: Str)
    ensures Ctr(c, key, nonce, p, a + b) == Ctr(c, key, nonce, p, a) + Ctr(c, key, nonce, p + |a|, b)
  {
    hide KeyStream;
    var whole, parts := Ctr(c, key, nonce, p, a + b), Ctr(c, key, nonce, p, a) + Ctr(c, key, nonce, p + |a|, b);
    forall i | 0 <= i < |a + b|
      ensures whole[i] == parts[i]
    {
      if i >= |a| { assert p + i == p + |a| + (i - |a|); }
    }
  }

  /** Decryption is encryption from the same position. */
  lemma CtrInvolution(c: Suite, key: Str, nonce: Nonce, p: nat, s: Str)
    ensures Ctr(c, key, nonce, p, Ctr(c, key, nonce, p, s)) == s
  {
    hide KeyStream;
    forall i | 0 <= i < |s|
      ensures Ctr(c, key, nonce, p, Ctr(c, key, nonce, p, s))[i] == s[i]
    {
      XorInvolution(s[i], KeyStream(c, key, nonce, p + i));
    }
  }

  /** Two counter blocks are equal exactly when their numbers agree modulo 2^32: no
      counter repeats within 2^32 blocks, and every one repeats after them. */
  lemma CounterRepeats(nonce: Nonce, m: nat, n: nat)
    ensures CounterBlock(nonce, m) == CounterBlock(nonce, n) <==> m % PERIOD == n % PERIOD
  {
    Be32Value(m);
    Be32Value(n);
    hide Be32, Value;
    assert CounterBlock(nonce, m)[12..] == Be32(m) && CounterBlock(nonce, n)[12..] == Be32(n);
    if m % PERIOD == n % PERIOD { ValueInjective(Be32(m), Be32(n)); }
  }
}
