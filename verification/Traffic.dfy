/** Messages between the two ends while the handshake goes on: each end's cipher positions,
    the bytes in flight, and when what arrives is decrypted right. */
module Traffic {
  import opened Bytes
  import opened Crypto
  import opened AesCtr
  import opened SaStore
  import opened ConnectionStates
  import Packets
  import opened Handshake
  import opened HandshakeLaws
  import opened HandshakeRuns

  /** The bytes in flight one way, and the plain bytes that the sender meant. */
  datatype Lane = Lane(cipher: Str, plain: Str)

  /** How far the sending and the receiving cipher of an end's association have come. */
  datatype Ciphers = Ciphers(encr: nat, decr: nat)

  datatype Link = Link(w: World, ini: Ciphers, res: Ciphers, toI: Lane, toR: Lane)

  const Unused := Ciphers(0, 0)

  datatype Event =
    | Turning(t: Turn)
    | InitiatorSends(buf: Str, out: nat)   // `out` bytes of the message go out
    | ResponderSends(buf: Str, out: nat)
    | InitiatorReads(n: nat)
    | ResponderReads(n: nat)

  /** The turn's handler stores an association, with both ciphers at their start. */
  predicate InitiatorStores(s: Peers, w: World, t: Turn) {
    t.AtInitiator? && var e := Incoming(s.c, s.privI, w.ini, t.m, t.given); e.Done? && e.sa.Some?
  }

  predicate ResponderStores(s: Peers, w: World, t: Turn) {
    t.AtResponder? && var e := Incoming(s.c, s.privR, w.res, t.m, t.given); e.Done? && e.sa.Some?
  }

  function Encrypted(c: Suite, a: Sa, pos: nat, plain: Str): (r: Str)
    ensures |r| == |plain|
  {
    Ctr(c, a.lEK, a.rEK[..12], pos, plain)
  }

  function Decrypted(c: Suite, a: Sa, pos: nat, cipher: Str): (r: Str)
    ensures |r| == |cipher|
  {
    Ctr(c, a.rEK, a.lEK[..12], pos, cipher)
  }

  function Extended(c: Suite, a: Sa, pos: nat, lane: Lane, buf: Str, out: nat): Lane
    requires out <= |buf|
  {
    Lane(lane.cipher + Encrypted(c, a, pos, buf)[..out], lane.plain + buf[..out])
  }

  function Shortened(lane: Lane, n: nat): Lane
    requires n <= |lane.cipher| == |lane.plain|
  {
    Lane(lane.cipher[n..], lane.plain[n..])
  }

  predicate Enabled(s: Peers, l: Link, e: Event) {
    match e
    case Turning(t) => Possible(s, l.w, t) && Take(s, l.w, t).Going?
    case InitiatorSends(buf, out) => l.w.saI.Some? && out <= |buf|
    case ResponderSends(buf, out) => l.w.saR.Some? && out <= |buf|
    case InitiatorReads(n) => l.w.saI.Some? && n <= |l.toI.cipher| == |l.toI.plain|
    case ResponderReads(n) => l.w.saR.Some? && n <= |l.toR.cipher| == |l.toR.plain|
  }

  function Next(s: Peers, l: Link, e: Event): Link
    requires Enabled(s, l, e)
  {
    match e
    case Turning(t) =>
      l.(w := Take(s, l.w, t).w,
         ini := if InitiatorStores(s, l.w, t) then Unused else l.ini,
         res := if ResponderStores(s, l.w, t) then Unused else l.res)
    case InitiatorSends(buf, out) =>
      l.(ini := l.ini.(encr := l.ini.encr + |buf|),
         toR := Extended(s.c, l.w.saI.value, l.ini.encr, l.toR, buf, out))
    case ResponderSends(buf, out) =>
      l.(res := l.res.(encr := l.res.encr + |buf|),
         toI := Extended(s.c, l.w.saR.value, l.res.encr, l.toI, buf, out))
    case InitiatorReads(n) => l.(ini := l.ini.(decr := l.ini.decr + n), toI := Shortened(l.toI, n))
    case ResponderReads(n) => l.(res := l.res.(decr := l.res.decr + n), toR := Shortened(l.toR, n))
  }

  /** What a read decrypts is what the sender meant. */
  predicate ReadsRight(s: Peers, l: Link, e: Event)
    requires Enabled(s, l, e)
  {
    match e
    case InitiatorReads(n) => Decrypted(s.c, l.w.saI.value, l.ini.decr, l.toI.cipher[..n]) == l.toI.plain[..n]
    case ResponderReads(n) => Decrypted(s.c, l.w.saR.value, l.res.decr, l.toR.cipher[..n]) == l.toR.plain[..n]
    case _ => true
  }

  // ---------------------------------------------------------------- in step

  /** The bytes in flight were encrypted under the sender's association, and end where its
      cipher is now and begin where the receiver's cipher is. */
  predicate Fits(c: Suite, from: Sa, encr: nat, decr: nat, lane: Lane) {
    decr + |lane.cipher| == encr && lane.cipher == Encrypted(c, from, decr, lane.plain)
  }

  /** Both ends hold associations that fit crosswise, and both lanes fit. */
  predicate InStep(s: Peers, l: Link) {
    && l.w.saI.Some? && l.w.saR.Some? && Crosswise(l.w.saI.value, l.w.saR.value)
    && Fits(s.c, l.w.saI.value, l.ini.encr, l.res.decr, l.toR)
    && Fits(s.c, l.w.saR.value, l.res.encr, l.ini.decr, l.toI)
  }

  lemma SendFits(c: Suite, from: Sa, encr: nat, decr: nat, lane: Lane, buf: Str, out: nat)
    requires Fits(c, from, encr, decr, lane) && out <= |buf|
    ensures Fits(c, from, encr + |buf|, decr, Extended(c, from, encr, lane, buf, out)) <==> out == |buf|
  {
    assert buf[..out] + buf[out..] == buf;
    CtrSplit(c, from.lEK, from.rEK[..12], encr, buf[..out], buf[out..]);
    CtrSplit(c, from.lEK, from.rEK[..12], decr, lane.plain, buf[..out]);
    var whole := Encrypted(c, from, encr, buf);
    assert whole[..out] == Encrypted(c, from, encr, buf[..out]);
    hide Ctr;
  }

  lemma ReadFits(c: Suite, from: Sa, to: Sa, encr: nat, decr: nat, lane: Lane, n: nat)
    requires Fits(c, from, encr, decr, lane) && Crosswise(from, to) && n <= |lane.cipher| == |lane.plain|
    ensures Fits(c, from, encr, decr + n, Shortened(lane, n))
    ensures Decrypted(c, to, decr, lane.cipher[..n]) == lane.plain[..n]
  {
    var a, b := lane.plain[..n], lane.plain[n..];
    CutCipher(c, from, decr, lane.plain, n);
    CtrInvolution(c, from.lEK, from.rEK[..12], decr, a);
    hide Ctr;
  }

  lemma CutCipher(c: Suite, from: Sa, pos: nat, plain: Str, n: nat)
    requires n <= |plain|
    ensures Encrypted(c, from, pos, plain)[..n] == Encrypted(c, from, pos, plain[..n])
    ensures Encrypted(c, from, pos, plain)[n..] == Encrypted(c, from, pos + n, plain[n..])
  {
    hide Ctr;
    assert plain[..n] + plain[n..] == plain;
    CtrSplit(c, from.lEK, from.rEK[..12], pos, plain[..n], plain[n..]);
  }

  /** An event after which each end holds the association that it held before. */
  predicate Keeps(s: Peers, l: Link, e: Event) {
    e.Turning? ==> e.t != Forget && !InitiatorStores(s, l.w, e.t) && !ResponderStores(s, l.w, e.t)
  }

  predicate Partial(e: Event) {
    match e
    case InitiatorSends(buf, out) => out < |buf|
    case ResponderSends(buf, out) => out < |buf|
    case _ => false
  }

  /** Ends that are in step read right, and whatever keeps the associations keeps them in
      step, except exactly a message that goes out in part. */
  lemma StepKept(s: Peers, l: Link, e: Event)
    requires InStep(s, l) && Enabled(s, l, e) && Keeps(s, l, e)
    ensures ReadsRight(s, l, e)
    ensures InStep(s, Next(s, l, e)) <==> !Partial(e)
  {
    hide InStep, Take, Next, Enabled, ReadsRight;
    match e
    case Turning(t) => TurnKept(s, l, t);
    case InitiatorSends(buf, out) => InitiatorSendKept(s, l, buf, out);
    case ResponderSends(buf, out) => ResponderSendKept(s, l, buf, out);
    case InitiatorReads(n) => InitiatorReadKept(s, l, n);
    case ResponderReads(n) => ResponderReadKept(s, l, n);
  }

  lemma TurnKept(s: Peers, l: Link, t: Turn)
    requires InStep(s, l) && Enabled(s, l, Turning(t)) && Keeps(s, l, Turning(t))
    ensures InStep(s, Next(s, l, Turning(t))) && ReadsRight(s, l, Turning(t))
  {
    TurnKeepsBoth(s, l.w, t);
    hide Fits, Take, InitiatorStores, ResponderStores, Crosswise;
  }

  lemma InitiatorSendKept(s: Peers, l: Link, buf: Str, out: nat)
    requires InStep(s, l) && Enabled(s, l, InitiatorSends(buf, out))
    ensures InStep(s, Next(s, l, InitiatorSends(buf, out))) <==> out == |buf|
    ensures out <= |buf| && ReadsRight(s, l, InitiatorSends(buf, out))
  {
    hide Fits, Extended, Crosswise;
    SendFits(s.c, l.w.saI.value, l.ini.encr, l.res.decr, l.toR, buf, out);
  }

  lemma ResponderSendKept(s: Peers, l: Link, buf: Str, out: nat)
    requires InStep(s, l) && Enabled(s, l, ResponderSends(buf, out))
    ensures InStep(s, Next(s, l, ResponderSends(buf, out))) <==> out == |buf|
    ensures out <= |buf| && ReadsRight(s, l, ResponderSends(buf, out))
  {
    hide Fits, Extended, Crosswise;
    SendFits(s.c, l.w.saR.value, l.res.encr, l.ini.decr, l.toI, buf, out);
  }

  lemma InitiatorReadKept(s: Peers, l: Link, n: nat)
    requires InStep(s, l) && Enabled(s, l, InitiatorReads(n))
    ensures InStep(s, Next(s, l, InitiatorReads(n))) && ReadsRight(s, l, InitiatorReads(n))
  {
    hide Fits, Shortened, Decrypted, Crosswise;
    BothWays(l.w.saI.value, l.w.saR.value);
    ReadFits(s.c, l.w.saR.value, l.w.saI.value, l.res.encr, l.ini.decr, l.toI, n);
  }

  lemma BothWays(a: Sa, b: Sa)
    ensures Crosswise(a, b) <==> Crosswise(b, a)
  {
  }

  lemma ResponderReadKept(s: Peers, l: Link, n: nat)
    requires InStep(s, l) && Enabled(s, l, ResponderReads(n))
    ensures InStep(s, Next(s, l, ResponderReads(n))) && ReadsRight(s, l, ResponderReads(n))
  {
    hide Fits, Shortened, Decrypted, Crosswise;
    ReadFits(s.c, l.w.saI.value, l.w.saR.value, l.ini.encr, l.res.decr, l.toR, n);
  }

  lemma TurnKeepsBoth(s: Peers, w: World, t: Turn)
    requires Take(s, w, t).Going? && t != Forget && !InitiatorStores(s, w, t) && !ResponderStores(s, w, t)
    ensures Take(s, w, t).w.saI == w.saI && Take(s, w, t).w.saR == w.saR
  {
    hide Incoming, Packets.ToBytes;
  }

  /** An end that stores an association starts its ciphers anew. With associations that then
      fit crosswise, the ends are in step exactly when the other end has read nothing since it
      stored its own, nothing is on the way to it, and all that it has sent since is still on
      the way. */
  lemma StoreInStepIff(s: Peers, l: Link, t: Turn)
    requires Enabled(s, l, Turning(t)) && |l.toI.cipher| == |l.toI.plain| && |l.toR.cipher| == |l.toR.plain|
    requires var w := Take(s, l.w, t).w;
             w.saI.Some? && w.saR.Some? && Crosswise(w.saI.value, w.saR.value)
    ensures var n := Next(s, l, Turning(t));
            && (InitiatorStores(s, l.w, t) ==>
                (InStep(s, n) <==>
                 && l.res.decr == 0 && l.toR == Lane([], [])
                 && |l.toI.cipher| == l.res.encr && l.toI.cipher == Encrypted(s.c, n.w.saR.value, 0, l.toI.plain)))
            && (ResponderStores(s, l.w, t) ==>
                (InStep(s, n) <==>
                 && l.ini.decr == 0 && l.toI == Lane([], [])
                 && |l.toR.cipher| == l.ini.encr && l.toR.cipher == Encrypted(s.c, n.w.saI.value, 0, l.toR.plain)))
  {
    hide Take, Incoming, Ctr;
  }

  // ---------------------------------------------------------------- histories

  /** The link after the events, if each can happen when it comes. */
  function After(s: Peers, l: Link, events: seq<Event>): Option<Link> {
    if events == [] then Some(l)
    else
      match After(s, l, events[..|events| - 1])
      case None => None
      case Some(k) => if Enabled(s, k, events[|events| - 1]) then Some(Next(s, k, events[|events| - 1])) else None
  }

  /** Every event keeps both associations, and every message goes out in full. */
  predicate Smooth(s: Peers, l: Link, events: seq<Event>) {
    events == [] ||
    (Smooth(s, l, events[..|events| - 1]) && !Partial(events[|events| - 1]) &&
     match After(s, l, events[..|events| - 1])
     case None => true
     case Some(k) => Keeps(s, k, events[|events| - 1]))
  }

  /** Every read gives what the sender meant. */
  predicate AllRight(s: Peers, l: Link, events: seq<Event>) {
    events == [] ||
    (AllRight(s, l, events[..|events| - 1]) &&
     match After(s, l, events[..|events| - 1])
     case None => true
     case Some(k) => Enabled(s, k, events[|events| - 1]) ==> ReadsRight(s, k, events[|events| - 1]))
  }

  /** From ends in step, any mixture of messages both ways, of reads of any size, and of
      handshake turns that store nothing, is read right throughout and leaves them in step. */
  lemma {:induction false} SmoothStaysInStep(s: Peers, l: Link, events: seq<Event>)
    requires InStep(s, l) && After(s, l, events).Some? && Smooth(s, l, events)
    ensures AllRight(s, l, events) && InStep(s, After(s, l, events).value)
  {
    hide InStep, Enabled, Keeps, Partial, ReadsRight, Next;
    if events != [] {
      var front := events[..|events| - 1];
      SmoothStaysInStep(s, l, front);
      StepKept(s, After(s, l, front).value, events[|events| - 1]);
    }
  }

  function Turnings(turns: seq<Turn>): (events: seq<Event>)
    ensures |events| == |turns| && forall i :: 0 <= i < |turns| ==> events[i] == Turning(turns[i])
  {
    seq(|turns|, i requires 0 <= i < |turns| => Turning(turns[i]))
  }

  /** Turns alone move the worlds as a run does, and leave the lanes. */
  lemma {:induction false} TurnsAlone(s: Peers, l: Link, turns: seq<Turn>)
    requires HandshakeRuns.Run(s, l.w, turns).Some?
    ensures var k := After(s, l, Turnings(turns));
            && k.Some? && k.value.w == HandshakeRuns.Run(s, l.w, turns).value
            && k.value.toI == l.toI && k.value.toR == l.toR
  {
    hide Take, Possible, InitiatorStores, ResponderStores;
    if turns != [] {
      var front := turns[..|turns| - 1];
      TurnsAlone(s, l, front);
      assert Turnings(turns)[..|turns| - 1] == Turnings(front);
    }
  }

  /** One more turn: an end that stores has its ciphers at their start. */
  lemma OneTurn(s: Peers, l: Link, turns: seq<Turn>, n: nat)
    requires n < |turns| && HandshakeRuns.Run(s, l.w, turns[..n + 1]).Some?
    ensures HandshakeRuns.Run(s, l.w, turns[..n]).Some?
    ensures var w, t := HandshakeRuns.Run(s, l.w, turns[..n]).value, turns[n];
            var k, m := After(s, l, Turnings(turns[..n])), After(s, l, Turnings(turns[..n + 1]));
            && k.Some? && m.Some?
            && m.value.ini == (if InitiatorStores(s, w, t) then Unused else k.value.ini)
            && m.value.res == (if ResponderStores(s, w, t) then Unused else k.value.res)
  {
    hide Take, Possible, InitiatorStores, ResponderStores;
    assert turns[..n + 1][..n] == turns[..n];
    TurnsAlone(s, l, turns[..n]);
    TurnsAlone(s, l, turns[..n + 1]);
    assert Turnings(turns[..n + 1])[..n] == Turnings(turns[..n]);
  }

  lemma {:induction false} HonestAfter(s: Peers, w: World, turns: seq<Turn>)
    requires s.Lawful() && Honest(s, w) && HandshakeRuns.Run(s, w, turns).Some?
    ensures Honest(s, HandshakeRuns.Run(s, w, turns).value)
  {
    hide Take, Honest, Possible;
    if turns != [] {
      HonestAfter(s, w, turns[..|turns| - 1]);
      TurnKeepsHonest(s, HandshakeRuns.Run(s, w, turns[..|turns| - 1]).value, turns[|turns| - 1]);
    }
  }

  lemma I2Stores(s: Peers, w: World, t: Turn, j: Block, x: Block)
    requires s.Lawful() && Listening(w.res) && t.AtResponder? && t.given.ip == s.ipI && IsI2(s, t.m, j, x)
    ensures ResponderStores(s, w, t)
  {
    hide Incoming, Prints, Dispatch, Peers.MsgI2, Peers.MsgR2, Peers.SaR, Peers.Solution;
    Arrival(s.c, s.privR, w.res, t.m, s.MsgI2(j, x), t.given);
    DispatchI2(s, w.res, j, x, t.given);
  }

  lemma R2Stores(s: Peers, w: World, t: Turn, x: Block, y: Block)
    requires s.Lawful() && w.ini.state == I2_SENT && Awaits(s, w.ini, x) && Reply2(s, t, y)
    ensures InitiatorStores(s, w, t)
  {
    hide Incoming, Prints, Dispatch, Peers.MsgR2, Peers.SaI, Awaits;
    Arrival(s.c, s.privI, w.ini, t.m, s.MsgR2(y), t.given);
    DispatchR2(s, w.ini, x, y, t.given);
  }

  /** An undisturbed exchange with nothing on the way leaves the ends in step, whatever
      traffic went before it. */
  lemma ExchangeInStep(s: Peers, l: Link, turns: seq<Turn>, drawn: seq<Block>, x: Block, y: Block)
    requires s.Lawful() && Honest(s, l.w) && Exchange(s, turns, drawn, x, y)
    requires l.toI == l.toR == Lane([], [])
    ensures After(s, l, Turnings(turns)).Some? && InStep(s, After(s, l, Turnings(turns)).value)
  {
    ExchangeAgrees(s, l.w, turns, drawn, x, y);
    TurnsAlone(s, l, turns);
    BothStore(s, l, turns, drawn, x, y);
    hide Exchange, Honest, HandshakeRuns.Run, After, Peers.SaI, Peers.SaR, Crosswise, Peers.Lawful;
  }

  lemma BothStore(s: Peers, l: Link, turns: seq<Turn>, drawn: seq<Block>, x: Block, y: Block)
    requires s.Lawful() && Honest(s, l.w) && Exchange(s, turns, drawn, x, y)
    requires HandshakeRuns.Run(s, l.w, turns).Some?
    ensures var k := After(s, l, Turnings(turns));
            k.Some? && k.value.ini == k.value.res == Unused
  {
    hide After, HandshakeRuns.Run, Honest, Exchange, Opening, Prints, IsI2, Found, Peers.Lawful, Awaits, Reply2;
    hide InitiatorStores, ResponderStores;
    ExchangeParts(s, turns, drawn, x, y);
    var w4 := OpeningRuns(s, l.w, turns, drawn, x, y);
    OneTurn(s, l, turns, 4);
    OneTurn(s, l, turns, 3);
    HonestAfter(s, l.w, turns[..3]);
    var w3 := HandshakeRuns.Run(s, l.w, turns[..3]).value;
    HonestListens(s, w3);
    I2Stores(s, w3, turns[3], Found(s, drawn).value, x);
    R2Stores(s, w4, turns[4], x, y);
    OneSide(s, w4, turns[4]);
  }

  lemma ExchangeParts(s: Peers, turns: seq<Turn>, drawn: seq<Block>, x: Block, y: Block)
    requires Exchange(s, turns, drawn, x, y)
    ensures |turns| == 5 && turns[..5] == turns && Opening(s, turns, drawn, x, y) && Reply2(s, turns[4], y)
    ensures turns[3].AtResponder? && turns[3].given.ip == s.ipI && turns[4].AtInitiator?
    ensures Found(s, drawn).Some? && IsI2(s, turns[3].m, Found(s, drawn).value, x)
  {
    hide IsI2, Prints, Found;
  }

  lemma HonestListens(s: Peers, w: World)
    requires Honest(s, w)
    ensures Listening(w.res)
  {
  }

  lemma OneSide(s: Peers, w: World, t: Turn)
    ensures t.AtInitiator? ==> !ResponderStores(s, w, t)
  {
    hide Incoming;
  }

  /** So after an undisturbed exchange with nothing on the way, from any reachable world,
      everything that either end sends in full is read right, however messages, reads and
      turns that store nothing are mixed. */
  lemma TrafficAfterExchange(s: Peers, l: Link, turns: seq<Turn>, drawn: seq<Block>, x: Block, y: Block,
                             k: Link, events: seq<Event>)
    requires s.Lawful() && Honest(s, l.w) && Exchange(s, turns, drawn, x, y)
    requires l.toI == l.toR == Lane([], []) && After(s, l, Turnings(turns)) == Some(k)
    requires After(s, k, events).Some? && Smooth(s, k, events)
    ensures AllRight(s, k, events) && InStep(s, After(s, k, events).value)
  {
    hide *;
    ExchangeInStep(s, l, turns, drawn, x, y);
    SmoothStaysInStep(s, k, events);
  }
}
