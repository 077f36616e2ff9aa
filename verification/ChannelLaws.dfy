/** End to end: what one peer sends is what the other peer hands over. */
module ChannelLaws {
  import opened Bytes
  import opened Crypto
  import opened AesCtr
  import opened SaStore
  import opened Framing
  import opened Channel
  import opened HandshakeLaws
  import opened HandshakeRuns
  import opened ConnectionStates

  /** A call of `client_send_message`: the message, and how much of it went out. */
  datatype Call = Call(buf: Str, out: nat)
  {
    predicate Valid() { out <= |buf| }
  }

  predicate AllValid(calls: seq<Call>) { forall i :: 0 <= i < |calls| ==> calls[i].Valid() }

  /** The bytes that a sequence of calls puts on the wire, starting at cipher position `pos`:
      each call moves the cipher by its whole message. */
  function Wire(c: Suite, key: Str, nonce: Nonce, pos: nat, calls: seq<Call>): Str
    requires AllValid(calls)
    decreases |calls|
  {
    if calls == [] then []
    else Ctr(c, key, nonce, pos, calls[0].buf)[..calls[0].out] + Wire(c, key, nonce, pos + |calls[0].buf|, calls[1..])
  }

  /** The plain bytes of what went out. */
  function Meant(calls: seq<Call>): Str
    requires AllValid(calls)
  {
    if calls == [] then [] else calls[0].buf[..calls[0].out] + Meant(calls[1..])
  }

  /** The key bytes from the two positions coincide, for `n` bytes. */
  ghost predicate Coincide(c: Suite, key: Str, nonce: Nonce, sender: nat, receiver: nat, n: nat) {
    forall i: nat :: i < n ==> SameByte(c, key, nonce, sender, receiver, i)
  }

  predicate SameByte(c: Suite, key: Str, nonce: Nonce, sender: nat, receiver: nat, i: nat) {
    KeyStream(c, key, nonce, sender + i) == KeyStream(c, key, nonce, receiver + i)
  }

  /** The two ends' positions for the bytes of every call use the same key bytes. */
  ghost predicate InStep(c: Suite, key: Str, nonce: Nonce, sender: nat, receiver: nat, calls: seq<Call>)
    decreases |calls|
  {
    calls != [] ==>
      && Coincide(c, key, nonce, sender, receiver, calls[0].out)
      && InStep(c, key, nonce, sender + |calls[0].buf|, receiver + calls[0].out, calls[1..])
  }

  /** Decrypting from position `receiver` what was encrypted from position `sender` gives
      the plain bytes exactly when the two ends are in step. */
  lemma {:induction false} DecryptsIff(c: Suite, key: Str, nonce: Nonce, sender: nat, receiver: nat, calls: seq<Call>)
    requires AllValid(calls)
    ensures Ctr(c, key, nonce, receiver, Wire(c, key, nonce, sender, calls)) == Meant(calls)
            <==> InStep(c, key, nonce, sender, receiver, calls)
    decreases |calls|
  {
    hide Ctr, Coincide, AllValid, Wire, Meant, InStep, Call.Valid;
    Unfolded(c, key, nonce, sender, receiver, calls);
    if calls == [] {
      NothingToDecrypt(c, key, nonce, receiver);
    } else {
      var call, rest := calls[0], calls[1..];
      HeadIff(c, key, nonce, sender, receiver, call.buf, call.out);
      DecryptsIff(c, key, nonce, sender + |call.buf|, receiver + call.out, rest);
      StepIff(c, key, nonce, receiver, call.out, Ctr(c, key, nonce, sender, call.buf)[..call.out],
              Wire(c, key, nonce, sender + |call.buf|, rest), call.buf[..call.out], Meant(rest),
              Coincide(c, key, nonce, sender, receiver, call.out),
              InStep(c, key, nonce, sender + |call.buf|, receiver + call.out, rest));
    }
  }

  lemma Unfolded(c: Suite, key: Str, nonce: Nonce, sender: nat, receiver: nat, calls: seq<Call>)
    requires AllValid(calls)
    ensures calls == [] ==> Wire(c, key, nonce, sender, calls) == Meant(calls) == []
                            && InStep(c, key, nonce, sender, receiver, calls)
    ensures calls != [] ==>
              var call, rest := calls[0], calls[1..];
              && call.out <= |call.buf| && AllValid(rest)
              && Wire(c, key, nonce, sender, calls) ==
                 Ctr(c, key, nonce, sender, call.buf)[..call.out] + Wire(c, key, nonce, sender + |call.buf|, rest)
              && Meant(calls) == call.buf[..call.out] + Meant(rest)
              && (InStep(c, key, nonce, sender, receiver, calls) <==>
                  Coincide(c, key, nonce, sender, receiver, call.out)
                  && InStep(c, key, nonce, sender + |call.buf|, receiver + call.out, rest))
  {
    hide Ctr, Coincide;
  }

  lemma NothingToDecrypt(c: Suite, key: Str, nonce: Nonce, pos: nat)
    ensures Ctr(c, key, nonce, pos, []) == []
  {
  }

  lemma StepIff(c: Suite, key: Str, nonce: Nonce, pos: nat, n: nat, a: Str, b: Str, a': Str, b': Str,
                here: bool, later: bool)
    requires |a| == |a'| == n
    requires Ctr(c, key, nonce, pos, a) == a' <==> here
    requires Ctr(c, key, nonce, pos + n, b) == b' <==> later
    ensures Ctr(c, key, nonce, pos, a + b) == a' + b' <==> here && later
  {
    CtrSplit(c, key, nonce, pos, a, b);
    SplitIff(Ctr(c, key, nonce, pos, a), Ctr(c, key, nonce, pos + |a|, b), a', b');
    hide Ctr;
  }

  lemma SplitIff(a: Str, b: Str, a': Str, b': Str)
    requires |a| == |a'|
    ensures a + b == a' + b' <==> a == a' && b == b'
  {
    assert (a + b)[..|a|] == a && (a' + b')[..|a'|] == a' && (a + b)[|a|..] == b && (a' + b')[|a'|..] == b';
  }

  lemma HeadIff(c: Suite, key: Str, nonce: Nonce, sender: nat, receiver: nat, buf: Str, out: nat)
    requires out <= |buf|
    ensures Ctr(c, key, nonce, receiver, Ctr(c, key, nonce, sender, buf)[..out]) == buf[..out] <==>
            Coincide(c, key, nonce, sender, receiver, out)
  {
    hide KeyStream;
    var cipher := Ctr(c, key, nonce, sender, buf)[..out];
    var r := Ctr(c, key, nonce, receiver, cipher);
    forall i: nat | i < out
      ensures r[i] == buf[..out][i] <==> SameByte(c, key, nonce, sender, receiver, i)
    {
      assert cipher[i] == Xor(buf[i], KeyStream(c, key, nonce, sender + i));
      XorTwice(buf[i], KeyStream(c, key, nonce, sender + i), KeyStream(c, key, nonce, receiver + i));
    }
    hide Ctr, SameByte;
  }

  /** Key bytes cancel exactly when they are equal. */
  lemma XorTwice(x: Byte, a: Byte, b: Byte)
    ensures Xor(Xor(x, a), b) == x <==> a == b
  {
    XorInvolution(x, b);
    XorInvolution(Xor(x, a), b);
    XorCommutes(x, a);
    XorCommutes(x, b);
    XorInvolution(a, x);
    XorInvolution(b, x);
    hide Xor;
  }

  lemma XorCommutes(a: Byte, b: Byte)
    ensures Xor(a, b) == Xor(b, a)
  {
    XorBitsCommutes(a, b, 8);
  }

  lemma {:induction false} XorBitsCommutes(a: nat, b: nat, n: nat)
    ensures XorBits(a, b, n) == XorBits(b, a, n)
  {
    if n > 0 { XorBitsCommutes(a / 2, b / 2, n - 1); }
  }

  /** Calls that all returned 0. */
  predicate AllSent(calls: seq<Call>) { forall i :: 0 <= i < |calls| ==> calls[i].out == |calls[i].buf| }

  function Bufs(calls: seq<Call>): seq<Str> { seq(|calls|, i requires 0 <= i < |calls| => calls[i].buf) }

  lemma {:induction false} SentInStep(c: Suite, key: Str, nonce: Nonce, pos: nat, calls: seq<Call>)
    requires AllSent(calls)
    ensures InStep(c, key, nonce, pos, pos, calls) && Meant(calls) == Flatten(Bufs(calls))
    decreases |calls|
  {
    hide KeyStream;
    if calls != [] {
      SentInStep(c, key, nonce, pos + calls[0].out, calls[1..]);
      assert Bufs(calls)[1..] == Bufs(calls[1..]);
    }
  }

  /** Peers with crosswise associations, all calls complete, the wire cut into chunks in
      any way: the receiver's thread hands over the messages of the sent bytes; when each
      call sent one message, exactly those, in order, with nothing left. */
  lemma ChannelDelivers(c: Suite, p: Parser, a: Sa, b: Sa, pos: nat, calls: seq<Call>, script: seq<Recv>)
    requires p.Lawful() && Crosswise(a, b) && AllSent(calls)
    requires Arrivals(script) == Wire(c, a.lEK, a.rEK[..12], pos, calls)
    ensures var stream := Ctr(c, b.rEK, b.lEK[..12], pos, Arrivals(script));
            && stream == Flatten(Bufs(calls))
            && ((forall i :: 0 <= i < |calls| ==> p.frame(calls[i].buf) == Message(calls[i].out)) ==>
                 Messages(p, stream) == Bufs(calls) && Rest(p, stream) == [])
  {
    DecryptsIff(c, a.lEK, a.rEK[..12], pos, pos, calls);
    SentInStep(c, a.lEK, a.rEK[..12], pos, calls);
    hide Ctr, Wire, InStep, Parser.Lawful;
    if forall i :: 0 <= i < |calls| ==> p.frame(calls[i].buf) == Message(calls[i].out) {
      WholeMessages(p, Bufs(calls));
    }
  }

  /** A call that went out in part leaves the ends out of step: the next message is
      decrypted right exactly when the key bytes at the two positions coincide. */
  lemma PartialSendDesynchronises(c: Suite, key: Str, nonce: Nonce, pos: nat, first: Call, next: Call)
    requires first.Valid() && next.out == |next.buf|
    ensures Ctr(c, key, nonce, pos, Wire(c, key, nonce, pos, [first, next])) == first.buf[..first.out] + next.buf
            <==> Coincide(c, key, nonce, pos + |first.buf|, pos + first.out, next.out)
  {
    var calls := [first, next];
    DecryptsIff(c, key, nonce, pos, pos, calls);
    assert calls[1..] == [next] && calls[1..][1..] == [];
    assert Meant([next]) == next.buf;
    hide Ctr, KeyStream, Wire;
    assert InStep(c, key, nonce, pos + |first.buf| + |next.buf|, pos + first.out + next.out, []);
  }

  /** It happens: one byte of a block stays behind, and the next message, a single byte, is
      decrypted with the wrong key byte. */
  lemma PartialSendFails() returns (c: Suite, key: Str, nonce: Nonce, first: Call, next: Call)
    ensures c.Lawful() && |key| == BLOCK
    ensures first.Valid() && first.out + 1 == |first.buf| && next.out == |next.buf| == 1
    ensures Ctr(c, key, nonce, 0, Wire(c, key, nonce, 0, [first, next])) != first.buf[..first.out] + next.buf
  {
    c, key, nonce := Toy(), Zeros(BLOCK), Zeros(12);
    first, next := Call(Zeros(16), 15), Call([0], 1);
    ToyIsLawful();
    ToyKeyStream(key, nonce);
    PartialSendDesynchronises(c, key, nonce, 0, first, next);
    hide Ctr, Wire, KeyStream, Toy;
    assert !SameByte(c, key, nonce, 16, 15, 0);
  }

  /** The toy's cipher hands the counter block through. */
  lemma ToyKeyStream(key: Str, nonce: Nonce)
    requires nonce == Zeros(12)
    ensures KeyStream(Toy(), key, nonce, 15) == 1 && KeyStream(Toy(), key, nonce, 16) == 0
  {
    assert Be32(1) == [0, 0, 0, 1];
    hide Be32;
    assert CounterBlock(nonce, 1)[15] == Be32(1)[3] && CounterBlock(nonce, 2)[0] == nonce[0];
  }

  /** Messages sent in full under association `a` are handed over in order and with nothing
      left by an end that holds `b`, however the wire is cut into chunks. */
  ghost predicate Delivers(c: Suite, a: Sa, b: Sa) {
    forall p: Parser, calls: seq<Call>, script: seq<Recv> :: DeliversThese(c, a, b, p, calls, script)
  }

  ghost predicate DeliversThese(c: Suite, a: Sa, b: Sa, p: Parser, calls: seq<Call>, script: seq<Recv>) {
    p.Lawful() && AllSent(calls) && (forall i :: 0 <= i < |calls| ==> p.frame(calls[i].buf) == Message(calls[i].out))
    && Arrivals(script) == Wire(c, a.lEK, a.rEK[..12], 0, calls)
    ==>
      var stream := Ctr(c, b.rEK, b.lEK[..12], 0, Arrivals(script));
      Messages(p, stream) == Bufs(calls) && Rest(p, stream) == []
  }

  lemma CrosswiseDelivers(c: Suite, a: Sa, b: Sa)
    requires Crosswise(a, b)
    ensures Delivers(c, a, b) && Delivers(c, b, a)
  {
    forall p: Parser, calls: seq<Call>, script: seq<Recv>
      ensures DeliversThese(c, a, b, p, calls, script) && DeliversThese(c, b, a, p, calls, script)
    {
      hide Ctr, Wire, Messages, Rest, Arrivals, Parser.Lawful;
      if p.Lawful() && AllSent(calls) {
        if Arrivals(script) == Wire(c, a.lEK, a.rEK[..12], 0, calls) { ChannelDelivers(c, p, a, b, 0, calls, script); }
        if Arrivals(script) == Wire(c, b.lEK, b.rEK[..12], 0, calls) { ChannelDelivers(c, p, b, a, 0, calls, script); }
      }
    }
  }

  /** From handshake to delivery: an undisturbed exchange, from any reachable world, goes
      through and leaves associations that deliver in both directions. */
  lemma SecuredChannel(s: Peers, w: World, turns: seq<Turn>, drawn: seq<Block>, x: Block, y: Block)
    requires s.Lawful() && Honest(s, w) && Exchange(s, turns, drawn, x, y)
    ensures var u := HandshakeRuns.Run(s, w, turns);
            && u.Some? && u.value.ini.state == ESTABLISHED && u.value.saI.Some? && u.value.saR.Some?
            && Delivers(s.c, u.value.saI.value, u.value.saR.value)
            && Delivers(s.c, u.value.saR.value, u.value.saI.value)
  {
    hide Honest, Exchange, HandshakeRuns.Run, Peers.SaI, Peers.SaR, Peers.Lawful, Delivers, Crosswise;
    ExchangeAgrees(s, w, turns, drawn, x, y);
    CrosswiseDelivers(s.c, s.SaI(x, y), s.SaR(x, y));
  }

  /** And in every run, whenever the two ends' session values are the same. */
  lemma SameSessionsDeliver(s: Peers, turns: seq<Turn>, w: World)
    requires s.Lawful() && HandshakeRuns.Run(s, Start(), turns) == Some(w) && Forget !in turns
    requires w.ini.state == ESTABLISHED
    requires w.ini.sessionX == w.res.sessionX && w.ini.sessionY == w.res.sessionY
    ensures w.saI.Some? && w.saR.Some?
    ensures Delivers(s.c, w.saI.value, w.saR.value) && Delivers(s.c, w.saR.value, w.saI.value)
  {
    hide HandshakeRuns.Run, Peers.SaI, Peers.Lawful, Delivers, Crosswise;
    RunsAgree(s, turns);
    CrosswiseDelivers(s.c, w.saI.value, w.saR.value);
  }
}
