/** The cipher objects of two entries that fit crosswise: what goes in at one end comes out at
    the other, call after call, and through the send and receive loops. */
module ChannelObjects {
  import opened Bytes
  import opened Crypto
  import opened AesCtr
  import opened SaStore
  import opened Framing
  import opened Channel
  import opened ChannelLaws

  // ---------------------------------------------------------------- one direction

  /** `wire` is what the sending cipher made of `pending`, and the receiving cipher is where
      `wire` begins in the same stream. */
  ghost predicate Flows(from: CAesCtr, to: CAesCtr, wire: Str, pending: Str)
    reads from, to
  {
    && from.Valid() && to.Valid()
    && from.c == to.c && from.key == to.key && from.nonce == to.nonce
    && from.pos == to.pos + |wire|
    && wire == Ctr(to.c, to.key, to.nonce, to.pos, pending)
  }

  /** The four ciphers of two entries are different objects. */
  predicate Apart(a: CsadbEntry, b: CsadbEntry) {
    && a.encr != a.decr && a.encr != b.encr && a.encr != b.decr
    && a.decr != b.encr && a.decr != b.decr && b.encr != b.decr
  }

  /** Each end's sending cipher is at the place of the other's receiving cipher. */
  ghost predicate Paired(a: CsadbEntry, b: CsadbEntry)
    reads a.encr, a.decr, b.encr, b.decr
  {
    Apart(a, b) && Flows(a.encr, b.decr, [], []) && Flows(b.encr, a.decr, [], [])
  }

  /** Fresh entries of two ends are paired when their keys are crosswise. */
  lemma StartsPaired(c: Suite, a: CsadbEntry, b: CsadbEntry)
    requires Apart(a, b) && a.Starts(c) && b.Starts(c) && Crosswise(a.sa, b.sa)
    ensures Paired(a, b)
  {
    hide CAesCtr.Valid, KeyStream;
  }

  /** `HIPDEX_Encrypt` at one end. */
  method Say(a: CsadbEntry, m: Str, wire: Str, ghost to: CAesCtr, ghost pending: Str) returns (after: Str)
    requires Flows(a.encr, to, wire, pending) && a.encr != to
    modifies a.encr
    ensures Flows(a.encr, to, after, pending + m)
  {
    hide CAesCtr.Valid, Ctr;
    ghost var c, key, nonce, start := to.c, to.key, to.nonce, to.pos;
    var cipher := EncryptWith(a, m);
    after := wire + cipher.value;
    MoreFlows(c, key, nonce, start, wire, pending, m);
  }

  lemma MoreFlows(c: Suite, key: Str, nonce: Nonce, p: nat, wire: Str, pending: Str, m: Str)
    requires wire == Ctr(c, key, nonce, p, pending)
    ensures wire + Ctr(c, key, nonce, p + |wire|, m) == Ctr(c, key, nonce, p, pending + m)
  {
    CtrSplit(c, key, nonce, p, pending, m);
    hide Ctr;
  }

  /** `HIPDEX_Decrypt` of the next `n` bytes at the other. */
  method Hear(b: CsadbEntry, n: nat, wire: Str, ghost from: CAesCtr, ghost pending: Str)
    returns (got: Str, after: Str)
    requires Flows(from, b.decr, wire, pending) && from != b.decr && n <= |wire|
    modifies b.decr
    ensures Flows(from, b.decr, after, pending[n..])
    ensures got == pending[..n] && after == wire[n..]
  {
    hide CAesCtr.Valid, Ctr;
    CutStream(b.decr.c, b.decr.key, b.decr.nonce, b.decr.pos, pending, n);
    var plain := DecryptWith(b, wire[..n]);
    got, after := plain.value, wire[n..];
  }

  lemma CutStream(c: Suite, key: Str, nonce: Nonce, p: nat, s: Str, n: nat)
    requires n <= |s|
    ensures Ctr(c, key, nonce, p, Ctr(c, key, nonce, p, s)[..n]) == s[..n]
    ensures Ctr(c, key, nonce, p, s)[n..] == Ctr(c, key, nonce, p + n, s[n..])
  {
    hide Ctr;
    var a, b := s[..n], s[n..];
    assert s == a + b;
    CtrSplit(c, key, nonce, p, a, b);
    CtrInvolution(c, key, nonce, p, a);
    Halves(Ctr(c, key, nonce, p, a), Ctr(c, key, nonce, p + n, b));
  }

  lemma Halves(a: Str, b: Str)
    ensures (a + b)[..|a|] == a && (a + b)[|a|..] == b
  {
  }

  /** One message over and back out, in either direction; the ends stay paired. */
  method RoundTrip(a: CsadbEntry, b: CsadbEntry, m: Str) returns (got: Option<Str>)
    requires Paired(a, b)
    modifies a.encr, b.decr
    ensures Paired(a, b) && got == Some(m)
  {
    hide CAesCtr.Valid;
    CtrInvolution(a.encr.c, a.encr.key, a.encr.nonce, a.encr.pos, m);
    var cipher := EncryptWith(a, m);
    hide Ctr, KeyStream;
    got := DecryptWith(b, cipher.value);
    NothingFlows(a.encr, b.decr);
  }

  lemma NothingFlows(from: CAesCtr, to: CAesCtr)
    requires from.Valid() && to.Valid() && from.c == to.c && from.key == to.key && from.nonce == to.nonce
    requires from.pos == to.pos
    ensures Flows(from, to, [], [])
  {
    hide CAesCtr.Valid, KeyStream;
  }

  // ---------------------------------------------------------------- any sequence of calls

  /** A call at one of the two ends: something is encrypted for the other end, or up to `n`
      bytes on the way to this one are decrypted. */
  datatype Move = Says(toB: bool, m: Str) | Hears(atB: bool, n: nat)

  /** Everything encrypted for one of the ends. */
  function Said(moves: seq<Move>, toB: bool): Str {
    if moves == [] then []
    else
      var front, last := Said(moves[..|moves| - 1], toB), moves[|moves| - 1];
      if last.Says? && last.toB == toB then front + last.m else front
  }

  /** How many bytes an end has decrypted: what it asked for, as far as there was something. */
  function Heard(moves: seq<Move>, atB: bool): (n: nat)
    ensures n <= |Said(moves, atB)|
  {
    if moves == [] then 0
    else
      var front, last := moves[..|moves| - 1], moves[|moves| - 1];
      var n := Heard(front, atB);
      if last.Hears? && last.atB == atB then
        if n + last.n <= |Said(front, atB)| then n + last.n else |Said(front, atB)|
      else n
  }

  /** Whatever the two ends encrypt and decrypt, in whatever order and pieces, each has out what
      the other put in, from the first byte on; the rest is on the wire. */
  method Converse(a: CsadbEntry, b: CsadbEntry, moves: seq<Move>)
    returns (gotA: Str, gotB: Str, wireA: Str, wireB: Str)
    requires Paired(a, b)
    modifies a.encr, a.decr, b.encr, b.decr
    ensures gotB == Said(moves, true)[..Heard(moves, true)]
    ensures gotA == Said(moves, false)[..Heard(moves, false)]
    ensures Flows(a.encr, b.decr, wireB, Said(moves, true)[Heard(moves, true)..])
    ensures Flows(b.encr, a.decr, wireA, Said(moves, false)[Heard(moves, false)..])
  {
    hide CAesCtr.Valid, Ctr, Said, Heard, Flows;
    gotA, gotB, wireA, wireB := [], [], [], [];
    NothingSaid(moves);
    for i := 0 to |moves|
      invariant Flows(a.encr, b.decr, wireB, Left(moves[..i], true)) && gotB == Got(moves[..i], true)
      invariant Flows(b.encr, a.decr, wireA, Left(moves[..i], false)) && gotA == Got(moves[..i], false)
    {
      Moved(moves, i, true);
      Moved(moves, i, false);
      FlowLength(a.encr, b.decr, wireB, Left(moves[..i], true));
      FlowLength(b.encr, a.decr, wireA, Left(moves[..i], false));
      match moves[i] {
        case Says(toB, m) =>
          if toB {
            wireB := Say(a, m, wireB, b.decr, Left(moves[..i], true));
          } else {
            wireA := Say(b, m, wireA, a.decr, Left(moves[..i], false));
          }
        case Hears(atB, n) =>
          var got;
          if atB {
            got, wireB := Hear(b, if n <= |wireB| then n else |wireB|, wireB, a.encr, Left(moves[..i], true));
            gotB := gotB + got;
          } else {
            got, wireA := Hear(a, if n <= |wireA| then n else |wireA|, wireA, b.encr, Left(moves[..i], false));
            gotA := gotA + got;
          }
      }
    }
    assert moves[..|moves|] == moves;
  }

  /** What an end has out, and what is on the way to it. */
  function Got(moves: seq<Move>, atB: bool): Str { Said(moves, atB)[..Heard(moves, atB)] }
  function Left(moves: seq<Move>, atB: bool): Str { Said(moves, atB)[Heard(moves, atB)..] }

  lemma NothingSaid(moves: seq<Move>)
    ensures forall b: bool :: Got(moves[..0], b) == Left(moves[..0], b) == []
  {
  }

  lemma FlowLength(from: CAesCtr, to: CAesCtr, wire: Str, pending: Str)
    requires Flows(from, to, wire, pending)
    ensures |wire| == |pending|
  {
  }

  /** How one more call changes the two parts. */
  lemma Moved(moves: seq<Move>, i: nat, side: bool)
    requires i < |moves|
    ensures var got, left := Got(moves[..i], side), Left(moves[..i], side);
            var got', left' := Got(moves[..i + 1], side), Left(moves[..i + 1], side);
            match moves[i]
            case Says(toB, m) => got' == got && left' == if toB == side then left + m else left
            case Hears(atB, n) =>
              if atB == side then
                var k := if n <= |left| then n else |left|;
                got' == got + left[..k] && left' == left[k..]
              else got' == got && left' == left
  {
    var front := moves[..i];
    assert moves[..i + 1][..i] == front && moves[..i + 1][i] == moves[i];
    var said, n := Said(front, side), Heard(front, side);
    assert said == said[..n] + said[n..];
    if moves[i].Says? {
      assert (said + moves[i].m)[..n] == said[..n] && (said + moves[i].m)[n..] == said[n..] + moves[i].m;
    }
  }

  // ---------------------------------------------------------------- the loops

  /** What becomes of each message, by how much the socket takes. */
  function CallsOf(bufs: seq<Str>, rounds: seq<seq<Round>>): (calls: seq<Call>)
    requires |rounds| == |bufs|
    ensures AllValid(calls)
  {
    seq(|bufs|, i requires 0 <= i < |bufs| => Call(bufs[i], Taken(rounds[i], |bufs[i]|)))
  }

  /** Message after message over a freshly stored entry: the socket gets the wire of the
      association from its first byte on, and a result is 0 exactly for a whole message. */
  method SendMessages(c: Suite, sadb: Csadb, ip: int, entry: CsadbEntry, bufs: seq<Str>, rounds: seq<seq<Round>>)
    returns (wire: Str, results: seq<Option<int>>)
    requires |rounds| == |bufs| && Finds(sadb, ip, entry) && entry.Starts(c)
    modifies entry.encr
    ensures wire == Wire(c, entry.sa.lEK, entry.sa.rEK[..12], 0, CallsOf(bufs, rounds))
    ensures |results| == |bufs|
    ensures forall i :: 0 <= i < |bufs| ==> (results[i] == Some(0) <==> Taken(rounds[i], |bufs[i]|) == |bufs[i]|)
  {
    hide CAesCtr.Valid, Ctr, Find, Listed, Taken, CallsOf;
    wire, results := [], [];
    ghost var key, nonce := entry.sa.lEK, entry.sa.rEK[..12];
    NothingSent(c, key, nonce, bufs, rounds);
    for i := 0 to |bufs|
      invariant Finds(sadb, ip, entry) && entry.encr.Valid() && |results| == i
      invariant entry.encr.pos == Moves(CallsOf(bufs[..i], rounds[..i]))
      invariant wire == Wire(c, key, nonce, 0, CallsOf(bufs[..i], rounds[..i]))
      invariant forall k :: 0 <= k < i ==> (results[k] == Some(0) <==> Taken(rounds[k], |bufs[k]|) == |bufs[k]|)
    {
      var r, out := SendMessage(sadb, ip, bufs[i], rounds[i], entry);
      OneMoreSent(c, key, nonce, bufs, rounds, i);
      wire := wire + out;
      results := results + [r];
    }
    assert bufs[..|bufs|] == bufs && rounds[..|bufs|] == rounds;
  }

  /** How far calls move the sending cipher. */
  function Moves(calls: seq<Call>): nat { if calls == [] then 0 else |calls[0].buf| + Moves(calls[1..]) }

  lemma NothingSent(c: Suite, key: Str, nonce: Nonce, bufs: seq<Str>, rounds: seq<seq<Round>>)
    requires |rounds| == |bufs|
    ensures Wire(c, key, nonce, 0, CallsOf(bufs[..0], rounds[..0])) == []
    ensures Moves(CallsOf(bufs[..0], rounds[..0])) == 0
  {
  }

  lemma OneMoreSent(c: Suite, key: Str, nonce: Nonce, bufs: seq<Str>, rounds: seq<seq<Round>>, i: nat)
    requires |rounds| == |bufs| && i < |bufs|
    ensures var calls := CallsOf(bufs[..i], rounds[..i]);
            var n := Taken(rounds[i], |bufs[i]|);
            && Moves(CallsOf(bufs[..i + 1], rounds[..i + 1])) == Moves(calls) + |bufs[i]|
            && Wire(c, key, nonce, 0, CallsOf(bufs[..i + 1], rounds[..i + 1])) ==
               Wire(c, key, nonce, 0, calls) + Ctr(c, key, nonce, Moves(calls), bufs[i])[..n]
  {
    var calls, call := CallsOf(bufs[..i], rounds[..i]), Call(bufs[i], Taken(rounds[i], |bufs[i]|));
    assert CallsOf(bufs[..i + 1], rounds[..i + 1]) == calls + [call];
    hide CallsOf, Taken;
    WireAppend(c, key, nonce, 0, calls, call);
  }

  lemma {:induction false} WireAppend(c: Suite, key: Str, nonce: Nonce, pos: nat, calls: seq<Call>, call: Call)
    requires AllValid(calls) && call.Valid()
    ensures AllValid(calls + [call]) && Moves(calls + [call]) == Moves(calls) + |call.buf|
    ensures Wire(c, key, nonce, pos, calls + [call]) ==
            Wire(c, key, nonce, pos, calls) + Ctr(c, key, nonce, pos + Moves(calls), call.buf)[..call.out]
    decreases |calls|
  {
    hide Ctr, Wire, Moves;
    WireFront(c, key, nonce, pos, calls + [call]);
    if calls == [] {
      assert (calls + [call])[1..] == [] && [call][1..] == [];
      WireNothing(c, key, nonce, pos);
      WireNothing(c, key, nonce, pos + |call.buf|);
      EmptyEnds(Ctr(c, key, nonce, pos, call.buf)[..call.out]);
    } else {
      var first, rest := calls[0], calls[1..];
      FrontOfAppend(calls, call);
      WireAppend(c, key, nonce, pos + |first.buf|, rest, call);
      WireFront(c, key, nonce, pos, calls);
      hide AllValid, Call.Valid;
      Associate(Ctr(c, key, nonce, pos, first.buf)[..first.out], Wire(c, key, nonce, pos + |first.buf|, rest),
                Ctr(c, key, nonce, pos + Moves(calls), call.buf)[..call.out]);
    }
  }

  lemma FrontOfAppend(calls: seq<Call>, call: Call)
    requires calls != []
    ensures (calls + [call])[1..] == calls[1..] + [call] && (calls + [call])[0] == calls[0]
  {
  }

  lemma EmptyEnds(s: Str)
    ensures [] + s == s == s + []
  {
  }

  lemma WireNothing(c: Suite, key: Str, nonce: Nonce, pos: nat)
    ensures Wire(c, key, nonce, pos, []) == [] && Moves([]) == 0
  {
  }

  lemma WireFront(c: Suite, key: Str, nonce: Nonce, pos: nat, calls: seq<Call>)
    requires calls != [] && AllValid(calls)
    ensures Moves(calls) == |calls[0].buf| + Moves(calls[1..])
    ensures calls[0].out <= |calls[0].buf|
    ensures Wire(c, key, nonce, pos, calls) ==
            Ctr(c, key, nonce, pos, calls[0].buf)[..calls[0].out]
            + Wire(c, key, nonce, pos + |calls[0].buf|, calls[1..])
  {
    hide Ctr;
  }

  /** From the send loop of one end to the thread of the other, over the objects that storing
      crosswise associations makes: when every message went out whole and was one message to
      the parser, and what arrived is what was put out, in any pieces, the thread hands over
      exactly the messages. */
  method SendAndHandOver(c: Suite, p: Parser, sadbA: Csadb, sadbB: Csadb, ipA: int, ipB: int,
                         hitA: Str, hitB: Str, key1: Block, key2: Block,
                         bufs: seq<Str>, rounds: seq<seq<Round>>,
                         listener: Listener, fd: int, script: seq<Recv>)
    returns (wire: Str, results: seq<Option<int>>, handed: seq<Str>, blocked: bool)
    requires |rounds| == |bufs| && sadbA != sadbB && p.Lawful()
    requires OnePerAddress(sadbA.View()) && OnePerAddress(sadbB.View())
    requires forall i :: 0 <= i < |script| ==> script[i].Fits()
    modifies sadbA, sadbB, listener
    ensures |results| == |bufs|
    ensures (forall i :: 0 <= i < |bufs| ==> results[i] == Some(0) && p.frame(bufs[i]) == Message(|bufs[i]|))
            && Arrivals(script) == wire
            ==> handed == bufs && (blocked <==> AllChunks(script))
  {
    hide Parser.Lawful, Ctr, CAesCtr.Valid, Messages, Rest, Wire, Arrivals, AllChunks, Recv.Fits, Erase, Find, Listed;
    hide CallsOf, Taken;
    var a := sadbA.StoreSA(c, hitA, hitB, key1, key2, ipB);
    FindStored(old(sadbA.View()), ipB, a);
    var b := sadbB.StoreSA(c, hitB, hitA, key2, key1, ipA);
    FindStored(old(sadbB.View()), ipA, b);
    var client := new Client();
    wire, results := SendMessages(c, sadbA, ipB, a, bufs, rounds);
    handed, blocked := HandlerThread(listener, client, fd, p, sadbB, ipA, script, b);
    HandedAre(c, p, a.sa, b.sa, bufs, rounds, script);
  }

  /** A search finds what was just stored. */
  lemma FindStored<T>(db: Listing<T>, ip: int, x: T)
    requires OnePerAddress(db)
    ensures Find(Store(db, ip, x), ip) == Some(x)
  {
    EraseLaws(db, ip);
    FindAppend(Erase(db, ip), ip, x, ip);
  }

  lemma HandedAre(c: Suite, p: Parser, a: Sa, b: Sa, bufs: seq<Str>, rounds: seq<seq<Round>>, script: seq<Recv>)
    requires p.Lawful() && Crosswise(a, b) && |rounds| == |bufs|
    ensures var stream := Stream([], c, b.rEK, b.lEK[..12], 0, script);
            AllWhole(p, bufs, rounds)
            && Arrivals(script) == Wire(c, a.lEK, a.rEK[..12], 0, CallsOf(bufs, rounds))
            ==> Messages(p, stream) == bufs && p.frame(Rest(p, stream)) == More
  {
    var calls := CallsOf(bufs, rounds);
    hide Ctr, Wire, Messages, Rest, Arrivals, CallsOf, Taken, AllSent, Bufs;
    var stream := Ctr(c, b.rEK, b.lEK[..12], 0, Arrivals(script));
    EmptyEnds(stream);
    assert p.frame([]) == More;
    hide Parser.Lawful;
    if AllWhole(p, bufs, rounds) && Arrivals(script) == Wire(c, a.lEK, a.rEK[..12], 0, calls) {
      WholeCalls(p, bufs, rounds);
      ChannelDelivers(c, p, a, b, 0, calls, script);
    }
  }

  /** Every message goes out whole and is one message to the parser. */
  predicate AllWhole(p: Parser, bufs: seq<Str>, rounds: seq<seq<Round>>)
    requires |rounds| == |bufs|
  {
    forall i :: 0 <= i < |bufs| ==>
      Taken(rounds[i], |bufs[i]|) == |bufs[i]| && p.frame(bufs[i]) == Message(|bufs[i]|)
  }

  lemma WholeCalls(p: Parser, bufs: seq<Str>, rounds: seq<seq<Round>>)
    requires |rounds| == |bufs| && AllWhole(p, bufs, rounds)
    ensures var calls := CallsOf(bufs, rounds);
            && AllSent(calls) && Bufs(calls) == bufs
            && forall i :: 0 <= i < |calls| ==> p.frame(calls[i].buf) == Message(calls[i].out)
  {
    hide Taken;
  }
}
