/** The four packet handlers of HIP DEX. Each handler is a function on the connection's
    fields (what it must do) and a method of the connection object (how it does it). */
module Handshake {
  import opened Bytes
  import opened Crypto
  import opened Parameters
  import opened Packets
  import opened ConnectionStates
  import KD = KeyDeriv
  import PZ = Puzzle
  import opened SaStore

  const COMPLEXITY: Byte := 8
  const LIFETIME: Byte := 40
  const AES_128_CBC: Byte := 2
  const HIT_ECDH_DEX: Byte := 8
  const DH_GROUP_ECP192: Byte := 11

  datatype ConnState = ConnState(
    dhGroupList: Str, state: State, randomI: Str,
    localEK: Str, localIK: Str, remoteEK: Str, remoteIK: Str,
    sessionX: Str, sessionY: Str)

  /** Outcome of a handler. `Fault`: the C++ code dereferences a missing parameter, reads
      outside a buffer, or hands OpenSSL a key or vector of the wrong size. `Searching`: the
      puzzle loop has not found a solution among the values drawn so far. */
  datatype Effect =
    | Fault
    | Searching
    | Done(conn: ConnState, reply: Option<Packet>, sa: Option<Sa>)

  // ---------------------------------------------------------------- packets sent

  function Reply(kind: Byte, to: Packet, params: seq<HipParam>): Packet {
    Packet(59, kind, 2, 0, to.receiverHit, to.senderHit, params)
  }

  function ReplyR1(c: Suite, priv: Str, i1: Packet, randomI: Str): Packet {
    Reply(R1, i1, [Puzzle(COMPLEXITY, LIFETIME, 0, randomI), Cipher(AES_128_CBC),
                   HostId(NO_DOMAIN, c.hostId(priv), []), HitSuiteList([HIT_ECDH_DEX]),
                   DhGroupList([DH_GROUP_ECP192])])
  }

  /** A session value under the pairwise key, the puzzle value echoed behind it. */
  function SealedKey(c: Suite, ek: Str, randomI: Block, session: Block): (p: HipParam)
    ensures p.EncryptedKey? && p.Printable()
  {
    EncryptedKey(CbcEncrypt(c, ek, randomI, session + randomI))
  }

  /** I2 without its MAC. */
  function UnsignedI2(c: Suite, priv: Str, r1: Packet, puzzle: HipParam, j: Block, ek: Str, x: Block): Packet
    requires puzzle.Puzzle? && |puzzle.randomI| == BLOCK
  {
    Reply(I2, r1, [Solution(puzzle.complexity, puzzle.opaqueData, puzzle.randomI, j), Cipher(AES_128_CBC),
                   SealedKey(c, ek, puzzle.randomI, x),
                   HostId(NO_DOMAIN, c.hostId(priv), [])])
  }

  /** R2 without its MAC. */
  function UnsignedR2(c: Suite, i2: Packet, randomI: Block, ek: Str, y: Block): Packet {
    Reply(R2, i2, [SealedKey(c, ek, randomI, y), DhGroupList([DH_GROUP_ECP192])])
  }

  function SignedI2(c: Suite, priv: Str, r1: Packet, puzzle: HipParam, j: Block, k: KD.Keys, x: Block): Packet
    requires puzzle.Puzzle? && |puzzle.randomI| == BLOCK
  {
    WithMac(c, k.iik, UnsignedI2(c, priv, r1, puzzle, j, k.iek, x))
  }

  function SignedR2(c: Suite, i2: Packet, randomI: Block, k: KD.Keys, y: Block): Packet {
    WithMac(c, k.iik, UnsignedR2(c, i2, randomI, k.iek, y))
  }

  function WithMac(c: Suite, key: Str, p: Packet): Packet
    requires Printable(Covered(p.params))
  {
    p.(params := p.params + [HipMac3(Cmac(c, key, p))])
  }

  // ---------------------------------------------------------------- handlers

  function OnI1(c: Suite, priv: Str, conn: ConnState, p: Packet): Effect {
    Done(conn, Some(ReplyR1(c, priv, p, PZ.CalculateI(c, p.senderHit, p.receiverHit, [], []))), None)
  }

  function WithKeys(conn: ConnState, k: KD.Keys): ConnState {
    conn.(localIK := k.iik, localEK := k.iek, remoteIK := k.rik, remoteEK := k.rek)
  }

  function OnR1(c: Suite, priv: Str, conn: ConnState, p: Packet, drawn: seq<Block>, x: Block): Effect {
    var puzzle, host := First(p.params, PUZZLE), First(p.params, HOST_ID);
    if puzzle.None? || host.None? then Fault
    else
      FirstHasType(p.params, PUZZLE);
      FirstHasType(p.params, HOST_ID);
      R1Step(c, priv, conn, p, puzzle.value, host.value, drawn, x)
  }

  function R1Step(c: Suite, priv: Str, conn: ConnState, p: Packet, puzzle: HipParam, host: HipParam,
                  drawn: seq<Block>, x: Block): Effect
    requires puzzle.Puzzle? && host.HostId?
  {
    var i := puzzle.randomI;
    if |host.hostId| < 2 || |i| != BLOCK || puzzle.complexity > 128 then Fault
    else
      var shared := c.ecdh(host.hostId, priv);
      var j := PZ.FirstSolution(c, i, p.receiverHit, p.senderHit, puzzle.complexity, drawn);
      if j.None? then Searching
      else
        var k := KD.Derive(c, p.senderHit, p.receiverHit, i, shared);
        Done(WithKeys(conn, k).(randomI := i, sessionX := x),
             Some(SignedI2(c, priv, p, puzzle, j.value, k, x)), None)
  }

  /** A session value sent under the peer's key, with the puzzle value echoed behind it. */
  datatype Opened = Broken | Mismatch | Session(value: Block)

  /** The echo is compared as far as the data goes, but the puzzle value ends after one
      block: longer data is a mismatch when that block differs, and otherwise the comparison
      runs past the puzzle value. */
  function OpenKey(c: Suite, key: Str, randomI: Str, data: Str): Opened {
    if !Decryptable(key, randomI, data) then Broken
    else
      var plain := CbcDecrypt(c, key, randomI, data);
      if |data| > 2 * BLOCK then
        if plain[BLOCK..2 * BLOCK] == randomI then Broken else Mismatch
      else if plain[BLOCK..] == randomI[..|data| - BLOCK] then Session(plain[..BLOCK])
      else Mismatch
  }

  predicate Decryptable(key: Str, randomI: Str, data: Str) {
    |key| == |randomI| == BLOCK && |data| >= BLOCK && |data| % BLOCK == 0
  }

  function OnI2(c: Suite, priv: Str, conn: ConnState, p: Packet, y: Block, ip: int): Effect {
    var solution := First(p.params, SOLUTION);
    if solution.None? then Fault
    else
      FirstHasType(p.params, SOLUTION);
      var i := solution.value.randomI;
      if i != PZ.CalculateI(c, p.senderHit, p.receiverHit, [], [])
         || !PZ.Solves(c, i, p.senderHit, p.receiverHit, solution.value.solutionJ, COMPLEXITY)
      then Done(conn, None, None)
      else
        var host, ekey := First(p.params, HOST_ID), First(p.params, ENCRYPTED_KEY);
        if host.None? then Fault
        else
          FirstHasType(p.params, HOST_ID);
          FirstHasType(p.params, ENCRYPTED_KEY);
          I2Step(c, priv, conn, p, i, host.value, ekey, y, ip)
  }

  function I2Step(c: Suite, priv: Str, conn: ConnState, p: Packet, i: Block, host: HipParam,
                  ekey: Option<HipParam>, y: Block, ip: int): Effect
    requires host.HostId? && (ekey.Some? ==> ekey.value.EncryptedKey?)
  {
    if |host.hostId| < 2 || !Checkable(p) then Fault
    else
      var k := KD.Derive(c, p.senderHit, p.receiverHit, i, c.ecdh(host.hostId, priv));
      var keyed := WithKeys(conn, k);
      if !Verifies(c, keyed.remoteIK, p) then Done(keyed, None, None)
      else if ekey.None? then Fault
      else
        match OpenKey(c, keyed.remoteEK, i, ekey.value.data)
        case Broken => Fault
        case Mismatch => Done(keyed, None, None)
        case Session(x) =>
          var k2 := KD.Derive(c, p.senderHit, p.receiverHit, i, x + y);
          Done(keyed.(sessionX := x, sessionY := y),
               Some(SignedR2(c, p, i, k, y)),
               Some(Sa(ip, p.senderHit, p.receiverHit, k2.iek, k2.rek)))
  }

  function OnR2(c: Suite, conn: ConnState, p: Packet, ip: int): Effect {
    var ekey, dh := First(p.params, ENCRYPTED_KEY), First(p.params, DH_GROUP_LIST);
    if First(p.params, HIP_MAC_3).Some? && (|conn.remoteIK| != BLOCK || !Printable(Covered(p.params))) then Fault
    else if !Verifies(c, conn.remoteIK, p) then Done(conn, None, None)
    else if dh.None? then Fault
    else
      FirstHasType(p.params, ENCRYPTED_KEY);
      FirstHasType(p.params, DH_GROUP_LIST);
      if dh.value.list != conn.dhGroupList then Done(conn, None, None)
      else if ekey.None? then Fault
      else R2Step(c, conn, p, ekey.value.data, ip)
  }

  function R2Step(c: Suite, conn: ConnState, p: Packet, data: Str, ip: int): Effect {
    match OpenKey(c, conn.remoteEK, conn.randomI, data)
    case Broken => Fault
    case Mismatch => Done(conn, None, None)
    case Session(y) =>
      var k2 := KD.Derive(c, p.senderHit, p.receiverHit, conn.randomI, conn.sessionX + y);
      Done(conn.(sessionY := y), None, Some(Sa(ip, p.senderHit, p.receiverHit, k2.iek, k2.rek)))
  }

  /** Values a run takes from outside: drawn puzzle candidates, the fresh session value,
      and the address the packet came from. */
  datatype Inputs = Inputs(drawn: seq<Block>, session: Block, ip: int)

  /** The handler that the factory makes for the kind of the packet. */
  function OnPacket(c: Suite, priv: Str, conn: ConnState, p: Packet, given: Inputs): Effect {
    if p.kind == I1 then OnI1(c, priv, conn, p)
    else if p.kind == R1 then OnR1(c, priv, conn, p, given.drawn, given.session)
    else if p.kind == I2 then OnI2(c, priv, conn, p, given.session, given.ip)
    else OnR2(c, conn, p, given.ip)
  }

  /** `CConnection::Handle`: the gate, the handler, and the move to the next state. */
  function Dispatch(c: Suite, priv: Str, conn: ConnState, p: Packet, given: Inputs): Effect {
    if !Admits(conn.state, p.kind) then Done(conn, None, None)
    else Advance(OnPacket(c, priv, conn, p, given), NextState(p.kind))
  }

  function Advance(e: Effect, next: State): Effect {
    if e.Done? then e.(conn := e.conn.(state := next)) else e
  }

  // ---------------------------------------------------------------- the object

  class Connection {
    var dhGroupList: Str
    var state: State
    var randomI: Str
    var localEK: Str
    var localIK: Str
    var remoteEK: Str
    var remoteIK: Str
    var sessionX: Str
    var sessionY: Str

    constructor ()
      ensures View() == ConnState([], UNASSOCIATED, [], [], [], [], [], [], [])
    {
      dhGroupList, state, randomI := [], UNASSOCIATED, [];
      localEK, localIK, remoteEK, remoteIK, sessionX, sessionY := [], [], [], [], [], [];
    }

    function View(): ConnState
      reads this
    {
      ConnState(dhGroupList, state, randomI, localEK, localIK, remoteEK, remoteIK, sessionX, sessionY)
    }

    method SetKeys(k: KD.Keys)
      modifies this
      ensures View() == WithKeys(old(View()), k)
    {
      localIK := k.iik;
      localEK := k.iek;
      remoteIK := k.rik;
      remoteEK := k.rek;
    }

    /** `CI1Handler`: answers with a puzzle; the connection is not touched. */
    method HandleI1(c: Suite, priv: Str, p: Packet) returns (sent: Option<Str>)
      ensures Sends(sent, OnI1(c, priv, View(), p).reply)
    {
      hide ToBytes;
      var randomI := PZ.CalculateI(c, p.senderHit, p.receiverHit, [], []);
      var packet := NewReply(R1, p);
      packet.AddParameter(Puzzle(COMPLEXITY, LIFETIME, 0, randomI));
      packet.AddParameter(Cipher(AES_128_CBC));
      packet.AddParameter(HostId(NO_DOMAIN, c.hostId(priv), []));
      packet.AddParameter(HitSuiteList([HIT_ECDH_DEX]));
      packet.AddParameter(DhGroupList([DH_GROUP_ECP192]));
      assert packet.View() == ReplyR1(c, priv, p, randomI);
      var bytes := packet.Serialise();
      sent := Some(bytes);
    }

    /** `CR1Handler`: solves the puzzle, derives the keys, sends the session value. */
    method HandleR1(c: Suite, priv: Str, p: Packet, drawn: seq<Block>, x: Block)
      returns (r: Outcome, sent: Option<Str>)
      modifies this
      ensures Carries(OnR1(c, priv, old(View()), p, drawn, x), r, View(), sent)
    {
      hide ToBytes, Cmac, Covered, First, KD.Derive, SignedI2;
      var puzzle, host := First(p.params, PUZZLE), First(p.params, HOST_ID);
      FirstHasType(p.params, PUZZLE);
      FirstHasType(p.params, HOST_ID);
      if puzzle.None? || host.None? { return Crashed, None; }
      var i := puzzle.value.randomI;
      if |host.value.hostId| < 2 || |i| != BLOCK || puzzle.value.complexity > 128 { return Crashed, None; }
      var shared := c.ecdh(host.value.hostId, priv);
      var j := PZ.SolveR(c, i, p.receiverHit, p.senderHit, puzzle.value.complexity, drawn);
      if j.None? { return StillSearching, None; }
      randomI := i;
      var k := KD.FreshKeys(c, p.senderHit, p.receiverHit, i, shared);
      SetKeys(k);
      sessionX := x;
      sent := SendI2(c, priv, p, puzzle.value, j.value, k, x);
      r := Finished;
    }

    method SendI2(c: Suite, priv: Str, p: Packet, puzzle: HipParam, j: Block, k: KD.Keys, x: Block)
      returns (sent: Option<Str>)
      requires localIK == k.iik && localEK == k.iek
      requires puzzle.Puzzle? && |puzzle.randomI| == BLOCK
      ensures Sends(sent, Some(SignedI2(c, priv, p, puzzle, j, k, x)))
    {
      hide SealedKey;
      var i := puzzle.randomI;
      var packet := NewReply(I2, p);
      packet.AddParameter(Solution(puzzle.complexity, puzzle.opaqueData, i, j));
      packet.AddParameter(Cipher(AES_128_CBC));
      packet.AddParameter(SealedKey(c, localEK, i, x));
      packet.AddParameter(HostId(NO_DOMAIN, c.hostId(priv), []));
      assert packet.View() == UnsignedI2(c, priv, p, puzzle, j, localEK, x);
      sent := SendSigned(c, localIK, packet);
    }

    /** `CI2Handler`: checks the puzzle, the MAC and the echo, stores the association and
        answers with its own session value. */
    method HandleI2(c: Suite, priv: Str, p: Packet, y: Block, ip: int, sadb: Csadb)
      returns (r: Outcome, sent: Option<Str>, entry: CsadbEntry?)
      modifies this, sadb
      ensures Carries(OnI2(c, priv, old(View()), p, y, ip), r, View(), sent)
      ensures Stores(OnI2(c, priv, old(View()), p, y, ip), entry, old(sadb.View()), sadb.View())
      ensures entry != null ==> fresh(entry) && entry.Starts(c)
    {
      hide ToBytes, Cmac, Covered, OpenKey, First, KD.Derive, Store, SignedR2;
      ghost var was := View();
      var solution := First(p.params, SOLUTION);
      FirstHasType(p.params, SOLUTION);
      FirstHasType(p.params, HOST_ID);
      FirstHasType(p.params, ENCRYPTED_KEY);
      if solution.None? { return Crashed, None, null; }
      var i := solution.value.randomI;
      var ok := PZ.VerifyPuzzle(c, COMPLEXITY, i, solution.value.solutionJ, p.senderHit, p.receiverHit, [], []);
      if !ok { return Finished, None, null; }
      var host, ekey := First(p.params, HOST_ID), First(p.params, ENCRYPTED_KEY);
      if host.None? || |host.value.hostId| < 2 || !Checkable(p) { return Crashed, None, null; }
      var shared := c.ecdh(host.value.hostId, priv);
      var k := KD.FreshKeys(c, p.senderHit, p.receiverHit, i, shared);
      SetKeys(k);
      if !Verifies(c, remoteIK, p) { return Finished, None, null; }
      if ekey.None? { return Crashed, None, null; }
      var session := OpenSession(c, remoteEK, i, ekey.value.data);
      if session.Broken? { return Crashed, None, null; }
      if session.Mismatch? { return Finished, None, null; }
      entry := TakeSession(c, p, i, session.value, y, ip, sadb);
      assert OnI2(c, priv, was, p, y, ip).sa == Some(entry.sa);
      sent := SendR2(c, p, i, k, y);
      r := Finished;
    }

    /** Keeps both session values and stores the association made from them. */
    method TakeSession(c: Suite, p: Packet, i: Block, x: Block, y: Block, ip: int, sadb: Csadb)
      returns (entry: CsadbEntry)
      modifies this, sadb
      ensures View() == old(View()).(sessionX := x, sessionY := y)
      ensures fresh(entry) && entry.Starts(c)
      ensures var k2 := KD.Derive(c, p.senderHit, p.receiverHit, i, x + y);
              entry.sa == Sa(ip, p.senderHit, p.receiverHit, k2.iek, k2.rek)
      ensures sadb.View() == Store<CsadbEntry>(old(sadb.View()), ip, entry)
    {
      sessionX := x;
      sessionY := y;
      var k2 := KD.FreshKeys(c, p.senderHit, p.receiverHit, i, sessionX + y);
      hide KD.Derive, Store;
      entry := sadb.StoreSA(c, p.senderHit, p.receiverHit, k2.iek, k2.rek, ip);
    }

    method SendR2(c: Suite, p: Packet, i: Block, k: KD.Keys, y: Block) returns (sent: Option<Str>)
      requires localIK == k.iik && localEK == k.iek
      ensures Sends(sent, Some(SignedR2(c, p, i, k, y)))
    {
      hide SealedKey;
      var packet := NewReply(R2, p);
      packet.AddParameter(SealedKey(c, localEK, i, y));
      packet.AddParameter(DhGroupList([DH_GROUP_ECP192]));
      assert packet.View() == UnsignedR2(c, p, i, localEK, y);
      sent := SendSigned(c, localIK, packet);
    }

    /** `CR2Handler`: checks the MAC, the group list and the echo, stores the association. */
    method HandleR2(c: Suite, p: Packet, ip: int, sadb: Csadb)
      returns (r: Outcome, entry: CsadbEntry?)
      modifies this, sadb
      ensures Carries(OnR2(c, old(View()), p, ip), r, View(), None)
      ensures Stores(OnR2(c, old(View()), p, ip), entry, old(sadb.View()), sadb.View())
      ensures entry != null ==> fresh(entry) && entry.Starts(c)
    {
      hide Cmac, Covered, OpenKey, First, KD.Derive, Store;
      ghost var before, was := sadb.View(), View();
      var ekey, dh := First(p.params, ENCRYPTED_KEY), First(p.params, DH_GROUP_LIST);
      FirstHasType(p.params, ENCRYPTED_KEY);
      FirstHasType(p.params, DH_GROUP_LIST);
      if First(p.params, HIP_MAC_3).Some? && (|remoteIK| != BLOCK || !Printable(Covered(p.params))) {
        return Crashed, null;
      }
      if !Verifies(c, remoteIK, p) { return Finished, null; }
      if dh.None? { return Crashed, null; }
      if dh.value.list != dhGroupList { return Finished, null; }
      if ekey.None? { return Crashed, null; }
      var session := OpenSession(c, remoteEK, randomI, ekey.value.data);
      if session.Broken? { return Crashed, null; }
      if session.Mismatch? { return Finished, null; }
      sessionY := session.value;
      var k2 := KD.FreshKeys(c, p.senderHit, p.receiverHit, randomI, sessionX + sessionY);
      entry := sadb.StoreSA(c, p.senderHit, p.receiverHit, k2.iek, k2.rek, ip);
      assert sadb.View() == Store<CsadbEntry>(before, ip, entry);
      assert OnR2(c, was, p, ip).sa == Some(entry.sa);
      r := Finished;
    }

    method RunHandler(c: Suite, priv: Str, p: Packet, given: Inputs, sadb: Csadb)
      returns (r: Outcome, sent: Option<Str>, entry: CsadbEntry?)
      modifies this, sadb
      ensures Carries(OnPacket(c, priv, old(View()), p, given), r, View(), sent)
      ensures Stores(OnPacket(c, priv, old(View()), p, given), entry, old(sadb.View()), sadb.View())
      ensures entry != null ==> fresh(entry) && entry.Starts(c)
    {
      hide OnI1, OnR1, OnI2, OnR2, Store, ToBytes;
      r, sent, entry := Finished, None, null;
      if p.kind == I1 {
        I1LeavesAlone(c, priv, View(), p);
        sent := HandleI1(c, priv, p);
      } else if p.kind == R1 {
        R1StoresNothing(c, priv, View(), p, given);
        r, sent := HandleR1(c, priv, p, given.drawn, given.session);
      } else if p.kind == I2 {
        r, sent, entry := HandleI2(c, priv, p, given.session, given.ip, sadb);
      } else {
        ghost var was := View();
        r, entry := HandleR2(c, p, given.ip, sadb);
        R2SendsNothing(c, was, p, given.ip);
      }
    }

    /** The gate: a packet that the state admits goes to its handler, and whatever the
        handler did, a handler that returns moves the connection on. */
    method Handle(c: Suite, priv: Str, p: Packet, given: Inputs, sadb: Csadb)
      returns (r: Outcome, sent: Option<Str>, entry: CsadbEntry?)
      modifies this, sadb
      ensures Carries(Dispatch(c, priv, old(View()), p, given), r, View(), sent)
      ensures Stores(Dispatch(c, priv, old(View()), p, given), entry, old(sadb.View()), sadb.View())
      ensures entry != null ==> fresh(entry) && entry.Starts(c)
    {
      assert Sends(None, None);
      hide OnPacket, Store, ToBytes, Admits, NextState, Sends;
      r, sent, entry := Finished, None, null;
      if Admits(state, p.kind) {
        r, sent, entry := RunHandler(c, priv, p, given, sadb);
        if r == Finished { state := NextState(p.kind); }
      }
    }
  }

  lemma R2SendsNothing(c: Suite, conn: ConnState, p: Packet, ip: int)
    ensures var e := OnR2(c, conn, p, ip); !e.Searching? && (e.Done? ==> e.reply == None)
  {
    hide Verifies, OpenKey, First, KD.Derive, Covered;
  }

  lemma I1LeavesAlone(c: Suite, priv: Str, conn: ConnState, p: Packet)
    ensures OnI1(c, priv, conn, p).Done? && OnI1(c, priv, conn, p).conn == conn && OnI1(c, priv, conn, p).sa == None
  {
  }

  lemma R1StoresNothing(c: Suite, priv: Str, conn: ConnState, p: Packet, given: Inputs)
    ensures var e := OnR1(c, priv, conn, p, given.drawn, given.session); e.Done? ==> e.sa == None
  {
    hide SignedI2, First, KD.Derive;
  }

  /** Decrypts, compares the echoed puzzle value, and cuts it off: a session value comes
      out exactly when the sizes fit and the plain text is that value, followed by as much
      of the puzzle value as the data holds; longer data ends in a mismatch exactly when its
      second block is not the puzzle value. */
  method OpenSession(c: Suite, key: Str, randomI: Str, data: Str) returns (o: Opened)
    ensures o == OpenKey(c, key, randomI, data)
    ensures o.Broken? <==>
              !Decryptable(key, randomI, data) ||
              (|data| > 2 * BLOCK && CbcDecrypt(c, key, randomI, data)[BLOCK..2 * BLOCK] == randomI)
    ensures forall x: Block :: o == Session(x) <==>
              && Decryptable(key, randomI, data) && |data| <= 2 * BLOCK
              && CbcDecrypt(c, key, randomI, data) == x + randomI[..|data| - BLOCK]
  {
    OpensIff(c, key, randomI, data);
    if |key| != BLOCK || |randomI| != BLOCK || |data| < BLOCK || |data| % BLOCK != 0 { return Broken; }
    var decrypted := CbcDecrypt(c, key, randomI, data);
    if |data| > 2 * BLOCK {
      if decrypted[BLOCK..2 * BLOCK] == randomI { return Broken; }
      return Mismatch;
    }
    if decrypted[BLOCK..] != randomI[..|data| - BLOCK] { return Mismatch; }
    decrypted := decrypted[..BLOCK];
    o := Session(decrypted);
  }

  lemma OpensIff(c: Suite, key: Str, randomI: Str, data: Str)
    ensures OpenKey(c, key, randomI, data).Broken? <==>
              !Decryptable(key, randomI, data) ||
              (|data| > 2 * BLOCK && CbcDecrypt(c, key, randomI, data)[BLOCK..2 * BLOCK] == randomI)
    ensures forall x: Block :: OpenKey(c, key, randomI, data) == Session(x) <==>
              && Decryptable(key, randomI, data) && |data| <= 2 * BLOCK
              && CbcDecrypt(c, key, randomI, data) == x + randomI[..|data| - BLOCK]
  {
    if Decryptable(key, randomI, data) && |data| <= 2 * BLOCK {
      var plain, echo := CbcDecrypt(c, key, randomI, data), randomI[..|data| - BLOCK];
      hide CbcDecrypt;
      assert plain == plain[..BLOCK] + plain[BLOCK..];
      forall x: Block
        ensures plain == x + echo <==> plain[BLOCK..] == echo && plain[..BLOCK] == x
      {
        assert (x + echo)[..BLOCK] == x && (x + echo)[BLOCK..] == echo;
      }
    }
  }

  datatype Outcome = Crashed | StillSearching | Finished

  /** The bytes handed to the socket are the printed reply. */
  ghost predicate Sends(sent: Option<Str>, reply: Option<Packet>) {
    match reply
    case None => sent == None
    case Some(q) => Printable(q.params) && sent == Some(ToBytes(q))
  }

  /** A handler method did what its function says; after a crash nothing is promised. */
  ghost predicate Carries(e: Effect, r: Outcome, now: ConnState, sent: Option<Str>) {
    match e
    case Fault => r == Crashed
    case Searching => r == StillSearching && sent == None
    case Done(conn, reply, _) => r == Finished && now == conn && Sends(sent, reply)
  }

  /** The association of the effect, and no other, was stored. */
  ghost predicate Stores(e: Effect, entry: CsadbEntry?,
                         before: Listing<CsadbEntry>, now: Listing<CsadbEntry>)
  {
    e.Done? ==>
      match e.sa
      case None => entry == null && now == before
      case Some(sa) => entry != null && entry.sa == sa && now == Store<CsadbEntry>(before, sa.ip, entry)
  }

  method NewReply(kind: Byte, to: Packet) returns (packet: HipPacket)
    ensures fresh(packet) && packet.View() == Reply(kind, to, [])
  {
    packet := new HipPacket(kind);
    packet.SetHits(to.receiverHit, to.senderHit);
  }

  /** Appends the MAC under `key` and prints. */
  method SendSigned(c: Suite, key: Str, packet: HipPacket) returns (sent: Option<Str>)
    requires Printable(packet.params)
    modifies packet
    ensures Sends(sent, Some(WithMac(c, key, old(packet.View()))))
  {
    hide ToBytes, Cmac, Covered;
    var mac := packet.CalculateCmac(c, key);
    packet.AddParameter(HipMac3(mac));
    var bytes := packet.Serialise();
    sent := Some(bytes);
  }
}
