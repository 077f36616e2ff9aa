/** The exchange between two honest peers: every message is accepted by the other end's
    handler after going through the codec, and the associations fit each other. */
module HandshakeLaws {
  import opened Bytes
  import opened Crypto
  import opened Parameters
  import opened Packets
  import opened PacketLaws
  import opened ConnectionStates
  import opened SaStore
  import opened Handshake
  import KD = KeyDeriv
  import PZ = Puzzle

  /** Two peers with their private keys, HITs, and addresses as the other end sees them. */
  datatype Peers = Peers(c: Suite, privI: Str, privR: Str, hitI: Hit, hitR: Hit, ipI: int, ipR: int)
  {
    ghost predicate Lawful() { c.Lawful() && hitI != hitR }

    function RandomI(): Block { PZ.CalculateI(c, hitI, hitR, [], []) }

    /** Keys that each end derives from the Diffie-Hellman secret. */
    function KeysI(): KD.Keys { KD.Derive(c, hitR, hitI, RandomI(), c.ecdh(c.hostId(privR), privI)) }
    function KeysR(): KD.Keys { KD.Derive(c, hitI, hitR, RandomI(), c.ecdh(c.hostId(privI), privR)) }

    function PuzzleParam(): HipParam { Puzzle(COMPLEXITY, LIFETIME, 0, RandomI()) }

    predicate Solution(j: Block) { PZ.Solves(c, RandomI(), hitI, hitR, j, COMPLEXITY) }

    // The four messages of an honest exchange.
    function MsgI1(): Packet { Packet(59, I1, 2, 0, hitI, hitR, [DhGroupList([DH_GROUP_ECP192])]) }
    function MsgR1(): Packet { ReplyR1(c, privR, MsgI1(), RandomI()) }
    function MsgI2(j: Block, x: Block): Packet { SignedI2(c, privI, MsgR1(), PuzzleParam(), j, KeysI(), x) }
    function MsgR2(y: Block): Packet { SignedR2(c, MsgI1(), RandomI(), KeysR(), y) }

    /** What each end stores after exchanging session values `x` and `y`. */
    function SaI(x: Block, y: Block): Sa {
      var k := KD.Derive(c, hitR, hitI, RandomI(), x + y);
      Sa(ipR, hitR, hitI, k.iek, k.rek)
    }
    function SaR(x: Block, y: Block): Sa {
      var k := KD.Derive(c, hitI, hitR, RandomI(), x + y);
      Sa(ipI, hitI, hitR, k.iek, k.rek)
    }
  }

  // ---------------------------------------------------------------- keys

  lemma KeysAgree(s: Peers)
    requires s.Lawful()
    ensures s.KeysI() == KD.Swapped(s.KeysR())
  {
    assert s.c.ecdh(s.c.hostId(s.privR), s.privI) == s.c.ecdh(s.c.hostId(s.privI), s.privR);
    KD.DeriveSymmetric(s.c, s.hitR, s.hitI, s.RandomI(), s.c.ecdh(s.c.hostId(s.privI), s.privR));
  }

  /** Associations made from the same two session values fit crosswise; made from
      different ones, they fit exactly when the derived keys happen to be the same. */
  lemma AssociationsFit(s: Peers, x: Block, y: Block, x': Block, y': Block)
    requires s.Lawful()
    ensures Crosswise(s.SaI(x, y), s.SaR(x, y))
    ensures Crosswise(s.SaI(x, y), s.SaR(x', y')) <==>
            s.SaI(x, y).lEK == s.SaI(x', y').lEK && s.SaI(x, y).rEK == s.SaI(x', y').rEK
  {
    KD.DeriveSymmetric(s.c, s.hitR, s.hitI, s.RandomI(), x + y);
    KD.DeriveSymmetric(s.c, s.hitR, s.hitI, s.RandomI(), x' + y');
    hide KD.Derive;
  }

  // ---------------------------------------------------------------- messages

  /** A message survives printing and parsing. */
  ghost predicate Travels(p: Packet) {
    Printable(p.params) && Unpack(ToBytes(p)) == (Accepted, p)
  }

  lemma FaithfulTravels(p: Packet)
    requires Printable(p.params) && AllFaithful(p.params, 0)
    requires 1 <= p.kind <= 4 && p.version == 2
    ensures Travels(p)
  {
    UnpackPrinted(p);
  }

  lemma RequestsTravel(s: Peers)
    ensures Travels(s.MsgI1()) && Travels(s.MsgR1())
  {
    hide Travels, PZ.CalculateI;
    FaithfulTravels(s.MsgI1());
    FaithfulTravels(s.MsgR1());
  }

  lemma I2Travels(s: Peers, j: Block, x: Block)
    ensures Travels(s.MsgI2(j, x))
  {
    hide Travels, SealedKey, Cmac, KD.Derive, PZ.CalculateI;
    FaithfulTravels(s.MsgI2(j, x));
  }

  lemma R2Travels(s: Peers, y: Block)
    ensures Travels(s.MsgR2(y))
  {
    hide Travels, SealedKey, Cmac, KD.Derive, PZ.CalculateI;
    FaithfulTravels(s.MsgR2(y));
  }

  /** A list of parameters by type. */
  lemma FirstOfR1(s: Peers)
    ensures First(s.MsgR1().params, PUZZLE) == Some(s.PuzzleParam())
    ensures First(s.MsgR1().params, HOST_ID) == Some(HostId(NO_DOMAIN, s.c.hostId(s.privR), []))
  {
    var ps := s.MsgR1().params;
    assert ps[1..][1..] == ps[2..];
    assert ps[0] == s.PuzzleParam() && ps[1..][0] == ps[1] && ps[2].Type() == HOST_ID;
    assert First(ps[2..], HOST_ID) == Some(ps[2]);
    assert First(ps[1..], HOST_ID) == Some(ps[2]);
  }

  lemma FirstOfI2(s: Peers, j: Block, x: Block, ps: seq<HipParam>)
    requires ps == s.MsgI2(j, x).params
    ensures First(ps, SOLUTION) == Some(Parameters.Solution(COMPLEXITY, 0, s.RandomI(), j))
    ensures First(ps, ENCRYPTED_KEY) == Some(SealedKey(s.c, s.KeysI().iek, s.RandomI(), x))
    ensures First(ps, HOST_ID) == Some(HostId(NO_DOMAIN, s.c.hostId(s.privI), []))
  {
    hide SealedKey, Cmac, KD.Derive, PZ.CalculateI;
    FirstOfFive(ps);
  }

  lemma FirstOfFive(ps: seq<HipParam>)
    requires |ps| == 5 && ps[0].Solution? && ps[1].Cipher? && ps[2].EncryptedKey? && ps[3].HostId?
    ensures First(ps, SOLUTION) == Some(ps[0]) && First(ps, ENCRYPTED_KEY) == Some(ps[2])
    ensures First(ps, HOST_ID) == Some(ps[3])
  {
    assert ps[1..][1..] == ps[2..] && ps[2..][1..] == ps[3..];
    assert First(ps[3..], HOST_ID) == Some(ps[3]) && First(ps[2..], HOST_ID) == Some(ps[3]);
    assert First(ps[1..], HOST_ID) == Some(ps[3]);
    assert First(ps[2..], ENCRYPTED_KEY) == Some(ps[2]) && First(ps[1..], ENCRYPTED_KEY) == Some(ps[2]);
  }

  lemma FirstOfR2(s: Peers, y: Block)
    ensures var ps := s.MsgR2(y).params;
            && First(ps, ENCRYPTED_KEY) ==
               Some(SealedKey(s.c, s.KeysR().iek, s.RandomI(), y))
            && First(ps, DH_GROUP_LIST) == Some(DhGroupList([DH_GROUP_ECP192]))
  {
    hide SealedKey, Cmac, KD.Derive, PZ.CalculateI;
    var ps := s.MsgR2(y).params;
    assert First(ps[1..], DH_GROUP_LIST) == Some(ps[1]);
  }

  /** The handlers' MACs verify under the key that the other end calls remote. */
  lemma MacOfI2(s: Peers, j: Block, x: Block)
    requires s.Lawful()
    ensures Checkable(s.MsgI2(j, x)) && Verifies(s.c, s.KeysR().rik, s.MsgI2(j, x))
  {
    KeysAgree(s);
    hide SealedKey, Cmac, KD.Derive, PZ.CalculateI, Verifies;
    SignedVerifies(s.c, s.KeysI().iik, UnsignedI2(s.c, s.privI, s.MsgR1(), s.PuzzleParam(), j, s.KeysI().iek, x));
  }

  lemma MacOfR2(s: Peers, y: Block)
    requires s.Lawful()
    ensures Checkable(s.MsgR2(y)) && Verifies(s.c, s.KeysI().rik, s.MsgR2(y))
  {
    KeysAgree(s);
    hide SealedKey, Cmac, KD.Derive, PZ.CalculateI, Verifies;
    SignedVerifies(s.c, s.KeysR().iik, UnsignedR2(s.c, s.MsgI1(), s.RandomI(), s.KeysR().iek, y));
  }

  lemma SignedVerifies(c: Suite, key: Str, p: Packet)
    requires Printable(p.params) && forall i :: 0 <= i < |p.params| ==> !p.params[i].HipMac3?
    ensures Checkable(WithMac(c, key, p)) && Verifies(c, key, WithMac(c, key, p))
  {
    NoMac(p.params);
    SignVerify(c, key, p);
    hide Verifies, Cmac;
  }

  lemma {:induction false} NoMac(ps: seq<HipParam>)
    requires forall i :: 0 <= i < |ps| ==> !ps[i].HipMac3?
    ensures First(ps, HIP_MAC_3).None?
  {
    if ps != [] { NoMac(ps[1..]); }
  }

  /** The session value sent under a key opens under the same key. */
  lemma KeyOpens(c: Suite, key: Str, randomI: Block, x: Block)
    requires c.Lawful() && |key| == BLOCK
    ensures OpenKey(c, key, randomI, SealedKey(c, key, randomI, x).data) == Session(x)
  {
    var plain := x + randomI;
    var data := CbcEncrypt(c, key, randomI, plain);
    assert CbcDecrypt(c, key, randomI, data) == plain by { CbcRoundTrip(c, key, randomI, plain); }
    hide CbcEncrypt, CbcDecrypt;
    assert plain[BLOCK..] == randomI && randomI[..|data| - BLOCK] == randomI && plain[..BLOCK] == x;
  }

  // ---------------------------------------------------------------- handlers

  lemma ResponderAnswersI1(s: Peers, conn: ConnState)
    ensures OnI1(s.c, s.privR, conn, s.MsgI1()) == Done(conn, Some(s.MsgR1()), None)
  {
  }

  /** The initiator answers the honest R1 with the honest I2, once its search succeeds. */
  lemma InitiatorAnswersR1(s: Peers, conn: ConnState, drawn: seq<Block>, x: Block)
    requires s.Lawful()
    ensures var j := PZ.FirstSolution(s.c, s.RandomI(), s.hitI, s.hitR, COMPLEXITY as nat, drawn);
            OnR1(s.c, s.privI, conn, s.MsgR1(), drawn, x) ==
            if j.None? then Searching
            else Done(WithKeys(conn, s.KeysI()).(randomI := s.RandomI(), sessionX := x),
                      Some(s.MsgI2(j.value, x)), None)
  {
    FirstOfR1(s);
    hide First, SignedI2, KD.Derive, PZ.CalculateI;
  }

  /** The responder accepts the honest I2 in full. */
  lemma ResponderAcceptsI2(s: Peers, conn: ConnState, j: Block, x: Block, y: Block)
    requires s.Lawful() && s.Solution(j)
    ensures OnI2(s.c, s.privR, conn, s.MsgI2(j, x), y, s.ipI) ==
            Done(WithKeys(conn, s.KeysR()).(sessionX := x, sessionY := y),
                 Some(s.MsgR2(y)), Some(s.SaR(x, y)))
  {
    hide First, Verifies, Covered, OpenKey, SealedKey, KD.Derive, PZ.CalculateI, WithKeys, PZ.Solves;
    hide I2Step, Cmac, OnI2, Peers.MsgR2, SignedR2;
    var p, host := s.MsgI2(j, x), HostId(NO_DOMAIN, s.c.hostId(s.privI), []);
    var ekey := SealedKey(s.c, s.KeysI().iek, s.RandomI(), x);
    FirstOfI2(s, j, x, p.params);
    MacOfI2(s, j, x);
    KeysAgree(s);
    KeyOpens(s.c, s.KeysR().rek, s.RandomI(), x);
    PuzzlePasses(s.c, s.privR, conn, p, y, s.ipI, Parameters.Solution(COMPLEXITY, 0, s.RandomI(), j), host, ekey);
    AcceptsI2(s.c, s.privR, conn, p, s.RandomI(), host, ekey, y, s.ipI, s.KeysR(), x);
    SentToI1(s, j, x, y);
  }

  /** A solved puzzle leads to the responder's step. */
  lemma PuzzlePasses(c: Suite, priv: Str, conn: ConnState, p: Packet, y: Block, ip: int,
                     solution: HipParam, host: HipParam, ekey: HipParam)
    requires solution.Solution? && host.HostId? && ekey.EncryptedKey?
    requires First(p.params, SOLUTION) == Some(solution) && First(p.params, HOST_ID) == Some(host)
    requires First(p.params, ENCRYPTED_KEY) == Some(ekey)
    requires solution.randomI == PZ.CalculateI(c, p.senderHit, p.receiverHit, [], [])
    requires PZ.Solves(c, solution.randomI, p.senderHit, p.receiverHit, solution.solutionJ, COMPLEXITY as nat)
    ensures OnI2(c, priv, conn, p, y, ip) == I2Step(c, priv, conn, p, solution.randomI, host, Some(ekey), y, ip)
  {
    hide First, PZ.CalculateI, PZ.Solves, I2Step;
  }

  /** The responder's step once the MAC verifies and the session value opens. */
  lemma AcceptsI2(c: Suite, priv: Str, conn: ConnState, p: Packet, i: Block, host: HipParam, ekey: HipParam,
                  y: Block, ip: int, k: KD.Keys, x: Block)
    requires host.HostId? && |host.hostId| >= 2 && ekey.EncryptedKey? && Checkable(p)
    requires k == KD.Derive(c, p.senderHit, p.receiverHit, i, c.ecdh(host.hostId, priv))
    requires Verifies(c, k.rik, p) && OpenKey(c, k.rek, i, ekey.data) == Session(x)
    ensures var k2 := KD.Derive(c, p.senderHit, p.receiverHit, i, x + y);
            I2Step(c, priv, conn, p, i, host, Some(ekey), y, ip) ==
            Done(WithKeys(conn, k).(sessionX := x, sessionY := y),
                 Some(SignedR2(c, p, i, k, y)), Some(Sa(ip, p.senderHit, p.receiverHit, k2.iek, k2.rek)))
  {
    hide Verifies, Covered, OpenKey, KD.Derive, SignedR2;
  }

  /** The R2 that answers an I2 has the addresses of the one that answers the I1. */
  lemma SentToI1(s: Peers, j: Block, x: Block, y: Block)
    ensures SignedR2(s.c, s.MsgI2(j, x), s.RandomI(), s.KeysR(), y) == s.MsgR2(y)
  {
    hide SealedKey, Cmac, KD.Derive, PZ.CalculateI;
  }

  /** The initiator's connection after answering an R1 with session value `x`. */
  predicate Awaits(s: Peers, conn: ConnState, x: Block) {
    && conn.dhGroupList == [DH_GROUP_ECP192] && conn.randomI == s.RandomI() && conn.sessionX == x
    && conn.remoteIK == s.KeysI().rik && conn.remoteEK == s.KeysI().rek
  }

  /** The initiator accepts the honest R2 in full, with its current session value. */
  lemma InitiatorAcceptsR2(s: Peers, conn: ConnState, x: Block, y: Block)
    requires s.Lawful() && Awaits(s, conn, x)
    ensures OnR2(s.c, conn, s.MsgR2(y), s.ipR) ==
            Done(conn.(sessionY := y), None, Some(s.SaI(x, y)))
  {
    FirstOfR2(s, y);
    MacOfR2(s, y);
    KeysAgree(s);
    KeyOpens(s.c, s.KeysI().rek, s.RandomI(), y);
    hide First, Verifies, Covered, OpenKey, SealedKey, KD.Derive, PZ.CalculateI, WithMac;
  }

  /** `Handle` moves on whatever the handler did: an initiator that an R2 establishes holds
      a new association exactly when the MAC verified, the group list was the one it had
      offered, and the puzzle value was echoed. */
  lemma EstablishedStoresIff(c: Suite, priv: Str, conn: ConnState, p: Packet, given: Inputs)
    requires conn.state == I2_SENT && p.kind == R2 && Dispatch(c, priv, conn, p, given).Done?
    ensures var e := Dispatch(c, priv, conn, p, given);
            && e.conn.state == ESTABLISHED
            && (e.sa.Some? <==>
                && First(p.params, HIP_MAC_3).Some? && Printable(Covered(p.params))
                && Verifies(c, conn.remoteIK, p)
                && First(p.params, DH_GROUP_LIST) == Some(DhGroupList(conn.dhGroupList))
                && First(p.params, ENCRYPTED_KEY).Some?
                && OpenKey(c, conn.remoteEK, conn.randomI, KeyData(p)).Session?)
  {
    hide OnI1, OnR1, OnI2, OnR2, Verifies, OpenKey, First, Covered, Checkable;
    StoresIff(c, conn, p, given.ip);
  }

  lemma StoresIff(c: Suite, conn: ConnState, p: Packet, ip: int)
    requires OnR2(c, conn, p, ip).Done?
    ensures OnR2(c, conn, p, ip).sa.Some? <==>
            && First(p.params, HIP_MAC_3).Some? && Printable(Covered(p.params))
            && Verifies(c, conn.remoteIK, p)
            && First(p.params, DH_GROUP_LIST) == Some(DhGroupList(conn.dhGroupList))
            && First(p.params, ENCRYPTED_KEY).Some?
            && OpenKey(c, conn.remoteEK, conn.randomI, KeyData(p)).Session?
  {
    FirstHasType(p.params, DH_GROUP_LIST);
    FirstHasType(p.params, ENCRYPTED_KEY);
    hide OpenKey, First, Verifies, KD.Derive, Covered, Printable, R2Step;
    if First(p.params, HIP_MAC_3).Some? {
      R2StepStores(c, conn, p, KeyData(p), ip);
    } else {
      NoMacFails(c, conn.remoteIK, p);
    }
  }

  lemma R2StepStores(c: Suite, conn: ConnState, p: Packet, data: Str, ip: int)
    ensures var e := R2Step(c, conn, p, data, ip);
            e.Done? && e.sa.Some? <==> OpenKey(c, conn.remoteEK, conn.randomI, data).Session?
  {
    hide OpenKey, KD.Derive;
  }

  lemma NoMacFails(c: Suite, key: Str, p: Packet)
    requires Checkable(p)
    ensures Verifies(c, key, p) ==> First(p.params, HIP_MAC_3).Some?
  {
    hide Cmac, Covered;
  }

  /** The data of the encrypted key, if there is one. */
  function KeyData(p: Packet): Str {
    var q := First(p.params, ENCRYPTED_KEY);
    if q.Some? && q.value.EncryptedKey? then q.value.data else []
  }

  /** An R2 without a MAC, whatever else it holds, establishes the connection and stores
      nothing. */
  lemma R2WithoutMacEstablishes(c: Suite, priv: Str, conn: ConnState, p: Packet, given: Inputs)
    requires conn.state == I2_SENT && p.kind == R2 && First(p.params, HIP_MAC_3).None?
    ensures Dispatch(c, priv, conn, p, given) == Done(conn.(state := ESTABLISHED), None, None)
  {
    hide OpenKey, KD.Derive, CmacInput, Covered;
  }

  /** Whatever a packet holds, a handler that returns leaves the connection in the state
      that the gate's history prescribes. */
  lemma DispatchFollowsGate(c: Suite, priv: Str, conn: ConnState, p: Packet, given: Inputs)
    requires Dispatch(c, priv, conn, p, given).Done?
    ensures Dispatch(c, priv, conn, p, given).conn.state == After(conn.state, Arrives(p.kind))
  {
    hide OnPacket, Admits;
  }
}
