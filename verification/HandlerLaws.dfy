/** What each handler does with an arbitrary packet, honest or not: exactly which packets are
    answered and lead to an association, and what the answer and the association are. */
module HandlerLaws {
  import opened Bytes
  import opened Crypto
  import opened Parameters
  import opened Packets
  import opened PacketLaws
  import opened ConnectionStates
  import opened SaStore
  import opened Handshake
  import opened HandshakeLaws
  import KD = KeyDeriv
  import PZ = Puzzle

  // ---------------------------------------------------------------- session values

  /** The data is the cipher, under the key and with the puzzle value as vector, of the session
      value and as much of the puzzle value as there is room for. */
  predicate Seals(c: Suite, key: Str, randomI: Str, data: Str, session: Block) {
    && |key| == |randomI| == BLOCK && BLOCK <= |data| <= 2 * BLOCK && |data| % BLOCK == 0
    && CbcDecrypt(c, key, randomI, data) == session + randomI[..|data| - BLOCK]
  }

  predicate Opens(c: Suite, key: Str, randomI: Str, data: Str) {
    && |key| == |randomI| == BLOCK && BLOCK <= |data| <= 2 * BLOCK && |data| % BLOCK == 0
    && CbcDecrypt(c, key, randomI, data)[BLOCK..] == randomI[..|data| - BLOCK]
  }

  /** The session value in front of the echo. */
  function Inside(c: Suite, key: Str, randomI: Str, data: Str): (session: Block)
    requires Opens(c, key, randomI, data)
    ensures Seals(c, key, randomI, data, session)
  {
    var plain := CbcDecrypt(c, key, randomI, data);
    assert plain == plain[..BLOCK] + plain[BLOCK..];
    plain[..BLOCK]
  }

  lemma OpenKeyIff(c: Suite, key: Str, randomI: Str, data: Str)
    ensures OpenKey(c, key, randomI, data).Session? <==> Opens(c, key, randomI, data)
    ensures Opens(c, key, randomI, data) ==> OpenKey(c, key, randomI, data) == Session(Inside(c, key, randomI, data))
  {
    OpensIff(c, key, randomI, data);
    hide CbcDecrypt;
  }

  // ---------------------------------------------------------------- I2

  /** What an I2 must hold: SOLUTION, HOST_ID, ENCRYPTED_KEY and HIP_MAC_3, the first of each. */
  datatype PartsI2 = PartsI2(i: Str, j: Str, host: Str, data: Str, mac: Str)

  function ReadI2(p: Packet): Option<PartsI2> {
    match (First(p.params, SOLUTION), First(p.params, HOST_ID), First(p.params, ENCRYPTED_KEY),
           First(p.params, HIP_MAC_3))
    case (Some(Solution(_, _, i, j)), Some(HostId(_, host, _)), Some(EncryptedKey(data)), Some(HipMac3(mac))) =>
      Some(PartsI2(i, j, host, data, mac))
    case _ => None
  }

  /** The keys for the peer's public key in the packet. */
  function KeysOf(c: Suite, priv: Str, p: Packet, m: PartsI2): KD.Keys {
    KD.Derive(c, p.senderHit, p.receiverHit, m.i, c.ecdh(m.host, priv))
  }

  /** The puzzle is the one issued for the two HITs, and its solution leaves eight zero bits. */
  predicate PuzzleSolved(c: Suite, p: Packet, i: Str, j: Str) {
    && i == c.cmac(PZ.FIXED_KEY, p.senderHit + p.receiverHit)
    && PZ.BigEndian(c.cmac(i, p.senderHit + p.receiverHit + j)) < Pow2(120)
  }

  /** The first MAC is that of the packet under the key. */
  predicate MacIs(c: Suite, key: Str, p: Packet, mac: Str) {
    Printable(Covered(p.params)) && mac == c.cmac(key, CmacInput(p))
  }

  /** The puzzle is solved, the MAC is right under the peer's integrity key, and the session
      value opens under its encryption key. */
  predicate Genuine(c: Suite, priv: Str, p: Packet, m: PartsI2) {
    var k := KeysOf(c, priv, p, m);
    PuzzleSolved(c, p, m.i, m.j) && MacIs(c, k.rik, p, m.mac) && Opens(c, k.rek, m.i, m.data)
  }

  /** What the responder keeps, sends and stores for it. */
  function AnswerToI2(c: Suite, priv: Str, conn: ConnState, p: Packet, m: PartsI2, y: Block, ip: int): Effect
    requires Genuine(c, priv, p, m)
  {
    var k := KeysOf(c, priv, p, m);
    var x := Inside(c, k.rek, m.i, m.data);
    var k2 := KD.Derive(c, p.senderHit, p.receiverHit, m.i, x + y);
    Done(WithKeys(conn, k).(sessionX := x, sessionY := y),
         Some(SignedR2(c, p, m.i, k, y)),
         Some(Sa(ip, p.senderHit, p.receiverHit, k2.iek, k2.rek)))
  }

  /** An I2 that the responder's handler returns from: it has been answered, and an
      association stored, exactly when the gate let it through, it holds the four parameters
      and it is genuine; otherwise nothing is sent or stored and the session values stay. */
  lemma AnsweredI2Iff(c: Suite, priv: Str, conn: ConnState, p: Packet, given: Inputs)
    requires p.kind == I2 && Dispatch(c, priv, conn, p, given).Done?
    ensures var e := Dispatch(c, priv, conn, p, given);
            && (e.sa.Some? <==> e.reply.Some?)
            && (e.sa.Some? <==>
                Admits(conn.state, I2) && ReadI2(p).Some? && Genuine(c, priv, p, ReadI2(p).value))
            && (e.sa.Some? ==>
                e == Advance(AnswerToI2(c, priv, conn, p, ReadI2(p).value, given.session, given.ip), R2_SENT))
            && (e.sa.None? ==> e.conn.sessionX == conn.sessionX && e.conn.sessionY == conn.sessionY)
            && (!Admits(conn.state, I2) ==> e.conn == conn)
  {
    hide OnI2, Genuine, ReadI2, Admits, AnswerToI2;
    if Admits(conn.state, I2) { HandlesI2(c, priv, conn, p, given.session, given.ip); }
  }

  lemma HandlesI2(c: Suite, priv: Str, conn: ConnState, p: Packet, y: Block, ip: int)
    requires OnI2(c, priv, conn, p, y, ip).Done?
    ensures var e := OnI2(c, priv, conn, p, y, ip);
            && (e.sa.Some? <==> e.reply.Some?)
            && (e.sa.Some? <==> ReadI2(p).Some? && Genuine(c, priv, p, ReadI2(p).value))
            && (e.sa.Some? ==> e == AnswerToI2(c, priv, conn, p, ReadI2(p).value, y, ip))
            && (e.sa.None? ==> e.conn.sessionX == conn.sessionX && e.conn.sessionY == conn.sessionY)
  {
    hide First, PuzzleSolved, MacIs, Opens, I2Step, KD.Derive, PZ.Solves, PZ.CalculateI, SignedR2;
    ReadI2Iff(p);
    FirstHasType(p.params, SOLUTION);
    FirstHasType(p.params, HOST_ID);
    FirstHasType(p.params, ENCRYPTED_KEY);
    var solution := First(p.params, SOLUTION).value;
    PuzzleIff(c, p, solution.randomI, solution.solutionJ);
    if PuzzleSolved(c, p, solution.randomI, solution.solutionJ) {
      hide OnI2, ReadI2;
      StepI2(c, priv, conn, p, solution.randomI, First(p.params, HOST_ID).value, First(p.params, ENCRYPTED_KEY), y, ip);
    }
  }

  /** The four parameters are there exactly when a search finds each of the types. */
  lemma ReadI2Iff(p: Packet)
    ensures ReadI2(p).Some? <==>
            && First(p.params, SOLUTION).Some? && First(p.params, HOST_ID).Some?
            && First(p.params, ENCRYPTED_KEY).Some? && First(p.params, HIP_MAC_3).Some?
    ensures ReadI2(p).Some? ==>
            var m := ReadI2(p).value;
            && First(p.params, SOLUTION).value.Solution? && First(p.params, HOST_ID).value.HostId?
            && First(p.params, ENCRYPTED_KEY).value.EncryptedKey? && First(p.params, HIP_MAC_3).value.HipMac3?
            && m.i == First(p.params, SOLUTION).value.randomI && m.j == First(p.params, SOLUTION).value.solutionJ
            && m.host == First(p.params, HOST_ID).value.hostId
            && m.data == First(p.params, ENCRYPTED_KEY).value.data && m.mac == First(p.params, HIP_MAC_3).value.data
  {
    hide First;
    FirstHasType(p.params, SOLUTION);
    FirstHasType(p.params, HOST_ID);
    FirstHasType(p.params, ENCRYPTED_KEY);
    FirstHasType(p.params, HIP_MAC_3);
  }

  lemma PuzzleIff(c: Suite, p: Packet, i: Str, j: Str)
    ensures PuzzleSolved(c, p, i, j) <==>
            && i == PZ.CalculateI(c, p.senderHit, p.receiverHit, [], [])
            && PZ.Solves(c, i, p.senderHit, p.receiverHit, j, COMPLEXITY)
  {
    PZ.SolvesIff(c, i, p.senderHit, p.receiverHit, j, COMPLEXITY);
    hide PZ.Solves, PZ.BigEndian, Pow2;
    assert p.senderHit + p.receiverHit + [] + [] == p.senderHit + p.receiverHit;
  }

  lemma MacIff(c: Suite, key: Str, p: Packet)
    requires Checkable(p)
    ensures Verifies(c, key, p) <==>
            First(p.params, HIP_MAC_3).Some? && MacIs(c, key, p, MacData(p.params))
  {
    hide CmacInput, Covered, First, Printable;
  }

  /** The step after the puzzle: an association and an answer, or neither and the session
      values as they were. */
  lemma StepI2(c: Suite, priv: Str, conn: ConnState, p: Packet, i: Block, host: HipParam, ekey: Option<HipParam>,
               y: Block, ip: int)
    requires host.HostId? && (ekey.Some? ==> ekey.value.EncryptedKey?)
    requires I2Step(c, priv, conn, p, i, host, ekey, y, ip).Done?
    ensures var e := I2Step(c, priv, conn, p, i, host, ekey, y, ip);
            var k := KD.Derive(c, p.senderHit, p.receiverHit, i, c.ecdh(host.hostId, priv));
            && (e.sa.Some? <==> e.reply.Some?)
            && (e.sa.Some? <==>
                && First(p.params, HIP_MAC_3).Some? && MacIs(c, k.rik, p, MacData(p.params))
                && ekey.Some? && Opens(c, k.rek, i, ekey.value.data))
            && (e.sa.Some? ==>
                var x := Inside(c, k.rek, i, ekey.value.data);
                var k2 := KD.Derive(c, p.senderHit, p.receiverHit, i, x + y);
                e == Done(WithKeys(conn, k).(sessionX := x, sessionY := y), Some(SignedR2(c, p, i, k, y)),
                          Some(Sa(ip, p.senderHit, p.receiverHit, k2.iek, k2.rek))))
            && (e.sa.None? ==> e.conn.sessionX == conn.sessionX && e.conn.sessionY == conn.sessionY)
  {
    var k := KD.Derive(c, p.senderHit, p.receiverHit, i, c.ecdh(host.hostId, priv));
    MacIff(c, k.rik, p);
    if ekey.Some? { OpenKeyIff(c, k.rek, i, ekey.value.data); }
    hide First, Verifies, Checkable, MacIs, Opens, OpenKey, KD.Derive, SignedR2, MacData;
  }

  /** When the handler does not return: a parameter that it dereferences is missing, the public
      key is too short, the packet under the MAC cannot be printed, or the data cannot be
      decrypted or is compared past its end. */
  lemma FaultsI2Iff(c: Suite, priv: Str, conn: ConnState, p: Packet, given: Inputs)
    requires p.kind == I2
    ensures var e := Dispatch(c, priv, conn, p, given);
            && !e.Searching?
            && (e.Fault? <==> Admits(conn.state, I2) && CrashesAtAll(c, priv, p))
  {
    hide First, PuzzleSolved, I2Step, PZ.Solves, PZ.CalculateI, CrashesI2, Admits;
    FirstHasType(p.params, SOLUTION);
    FirstHasType(p.params, HOST_ID);
    FirstHasType(p.params, ENCRYPTED_KEY);
    if First(p.params, SOLUTION).Some? {
      var solution := First(p.params, SOLUTION).value;
      PuzzleIff(c, p, solution.randomI, solution.solutionJ);
      if PuzzleSolved(c, p, solution.randomI, solution.solutionJ) {
        StepCrashes(c, priv, conn, p, solution.randomI, given.session, given.ip);
      }
    }
  }

  predicate CrashesAtAll(c: Suite, priv: Str, p: Packet) {
    match First(p.params, SOLUTION)
    case Some(Solution(_, _, i, j)) => PuzzleSolved(c, p, i, j) && CrashesI2(c, priv, p, i)
    case _ => true
  }

  predicate CrashesI2(c: Suite, priv: Str, p: Packet, i: Str) {
    match First(p.params, HOST_ID)
    case Some(HostId(_, host, _)) =>
      |host| < 2 || CrashesKeyed(c, KD.Derive(c, p.senderHit, p.receiverHit, i, c.ecdh(host, priv)), p, i)
    case _ => true
  }

  predicate CrashesKeyed(c: Suite, k: KD.Keys, p: Packet, i: Str) {
    match First(p.params, HIP_MAC_3)
    case Some(HipMac3(mac)) =>
      !Printable(Covered(p.params)) || (MacIs(c, k.rik, p, mac) && CrashesOpening(c, k.rek, p, i))
    case _ => false
  }

  predicate CrashesOpening(c: Suite, key: Str, p: Packet, randomI: Str) {
    match First(p.params, ENCRYPTED_KEY)
    case Some(EncryptedKey(data)) => Breaks(c, key, randomI, data)
    case _ => true
  }

  /** Sizes that OpenSSL or the comparison of the echo do not bear. */
  predicate Breaks(c: Suite, key: Str, randomI: Str, data: Str) {
    !Decryptable(key, randomI, data)
    || (|data| > 2 * BLOCK && CbcDecrypt(c, key, randomI, data)[BLOCK..2 * BLOCK] == randomI)
  }

  lemma StepCrashes(c: Suite, priv: Str, conn: ConnState, p: Packet, i: Block, y: Block, ip: int)
    ensures var host, ekey := First(p.params, HOST_ID), First(p.params, ENCRYPTED_KEY);
            && (host.Some? ==> host.value.HostId?) && (ekey.Some? ==> ekey.value.EncryptedKey?)
            && (CrashesI2(c, priv, p, i) <==>
                host.None? || I2Step(c, priv, conn, p, i, host.value, ekey, y, ip).Fault?)
            && (host.Some? ==> !I2Step(c, priv, conn, p, i, host.value, ekey, y, ip).Searching?)
  {
    FirstHasType(p.params, HOST_ID);
    FirstHasType(p.params, ENCRYPTED_KEY);
    var host, ekey := First(p.params, HOST_ID), First(p.params, ENCRYPTED_KEY);
    hide First, KD.Derive, I2Step, CrashesKeyed;
    if host.Some? { StepFaults(c, priv, conn, p, i, host.value, ekey, y, ip); }
  }

  lemma StepFaults(c: Suite, priv: Str, conn: ConnState, p: Packet, i: Block, host: HipParam, ekey: Option<HipParam>,
                   y: Block, ip: int)
    requires host.HostId? && ekey == First(p.params, ENCRYPTED_KEY) && (ekey.Some? ==> ekey.value.EncryptedKey?)
    ensures var k := KD.Derive(c, p.senderHit, p.receiverHit, i, c.ecdh(host.hostId, priv));
            var e := I2Step(c, priv, conn, p, i, host, ekey, y, ip);
            !e.Searching? && (e.Fault? <==> |host.hostId| < 2 || CrashesKeyed(c, k, p, i))
  {
    FirstHasType(p.params, HIP_MAC_3);
    var k := KD.Derive(c, p.senderHit, p.receiverHit, i, c.ecdh(host.hostId, priv));
    if Checkable(p) { MacIff(c, k.rik, p); }
    if ekey.Some? { BreaksIff(c, k.rek, i, ekey.value.data); }
    hide First, KD.Derive, Breaks, OpenKey, SignedR2, Covered, Printable, MacIs, Verifies;
  }

  lemma BreaksIff(c: Suite, key: Str, randomI: Str, data: Str)
    ensures OpenKey(c, key, randomI, data).Broken? <==> Breaks(c, key, randomI, data)
  {
    OpensIff(c, key, randomI, data);
  }

  // ---------------------------------------------------------------- what is sent

  /** Types ascend, as section 5.2 of RFC 7401 demands. */
  predicate Ascending(ps: seq<HipParam>) { forall i, j :: 0 <= i < j < |ps| ==> ps[i].Type() < ps[j].Type() }

  /** A reply goes back the way the packet came. */
  predicate Answers(reply: Packet, p: Packet, kind: Byte) {
    && reply.kind == kind && reply.version == 2 && reply.nextHdr == 59 && reply.ctrls == 0
    && reply.senderHit == p.receiverHit && reply.receiverHit == p.senderHit && Ascending(reply.params)
  }

  lemma SealedSeals(c: Suite, key: Str, randomI: Block, session: Block)
    requires c.Lawful() && |key| == BLOCK
    ensures Seals(c, key, randomI, SealedKey(c, key, randomI, session).data, session)
  {
    var plain := session + randomI;
    CbcRoundTrip(c, key, randomI, plain);
    hide CbcEncrypt, CbcDecrypt;
    assert randomI[..|plain| - BLOCK] == randomI;
  }

  /** The R2 carries the responder's session value under its encryption key, the group it
      supports, and a MAC under its integrity key. */
  lemma SentR2(c: Suite, p: Packet, i: Block, k: KD.Keys, y: Block)
    requires c.Lawful() && |k.iek| == BLOCK
    ensures var r := SignedR2(c, p, i, k, y);
            && Answers(r, p, R2) && |r.params| == 3
            && r.params[0].EncryptedKey? && Seals(c, k.iek, i, r.params[0].data, y)
            && r.params[1] == DhGroupList([11])
            && r.params[2].HipMac3? && MacIs(c, k.iik, r, r.params[2].data)
  {
    hide SealedKey, Cmac, Covered, Seals;
    SealedSeals(c, k.iek, i, y);
    var u := UnsignedR2(c, p, i, k.iek, y);
    OwnMac(c, k.iik, u);
  }

  /** The appended MAC is that of the packet it is appended to. */
  lemma OwnMac(c: Suite, key: Str, p: Packet)
    requires Printable(p.params)
    ensures MacIs(c, key, WithMac(c, key, p), Cmac(c, key, p))
  {
    hide Covered, CmacInput, Printable;
    CmacIgnoresMacs(c, key, p, [HipMac3(Cmac(c, key, p))]);
  }

  /** The I2 carries the solution with the puzzle's own fields, the initiator's session value,
      its public key, and a MAC. */
  lemma SentI2(c: Suite, priv: Str, p: Packet, puzzle: HipParam, j: Block, k: KD.Keys, x: Block)
    requires c.Lawful() && |k.iek| == BLOCK && puzzle.Puzzle? && |puzzle.randomI| == BLOCK
    ensures var r := SignedI2(c, priv, p, puzzle, j, k, x);
            && Answers(r, p, I2) && |r.params| == 5
            && r.params[0] == Solution(puzzle.complexity, puzzle.opaqueData, puzzle.randomI, j)
            && r.params[1] == Cipher(2)
            && r.params[2].EncryptedKey? && Seals(c, k.iek, puzzle.randomI, r.params[2].data, x)
            && r.params[3] == HostId(0, c.hostId(priv), [])
            && r.params[4].HipMac3? && MacIs(c, k.iik, r, r.params[4].data)
  {
    hide SealedKey, Cmac, Covered, Seals, MacIs, Answers;
    SealedSeals(c, k.iek, puzzle.randomI, x);
    var u := UnsignedI2(c, priv, p, puzzle, j, k.iek, x);
    OwnMac(c, k.iik, u);
    I2GoesBack(c, priv, p, puzzle, j, k, x);
  }

  lemma I2GoesBack(c: Suite, priv: Str, p: Packet, puzzle: HipParam, j: Block, k: KD.Keys, x: Block)
    requires puzzle.Puzzle? && |puzzle.randomI| == BLOCK
    ensures Answers(SignedI2(c, priv, p, puzzle, j, k, x), p, I2)
  {
    hide SealedKey, Cmac, Covered;
  }

  // ---------------------------------------------------------------- I1 and R1

  /** An I1 that the gate lets through is answered, whatever it holds, with a puzzle for its
      two HITs; nothing is stored, and of the connection only the state changes. */
  lemma AnsweredI1(c: Suite, priv: Str, conn: ConnState, p: Packet, given: Inputs)
    requires p.kind == I1
    ensures var e := Dispatch(c, priv, conn, p, given);
            && e.Done? && e.sa == None
            && e.conn == (if Admits(conn.state, I1) then conn.(state := UNASSOCIATED) else conn)
            && (e.reply.Some? <==> Admits(conn.state, I1))
            && (e.reply.Some? ==>
                && Answers(e.reply.value, p, R1)
                && e.reply.value.params ==
                   [Puzzle(8, 40, 0, c.cmac(PZ.FIXED_KEY, p.senderHit + p.receiverHit)), Cipher(2),
                    HostId(0, c.hostId(priv), []), HitSuiteList([8]), DhGroupList([11])])
  {
    hide Admits;
    assert p.senderHit + p.receiverHit + [] + [] == p.senderHit + p.receiverHit;
  }

  /** What an R1 must hold, and the sizes that the handler bears. */
  datatype PartsR1 = PartsR1(k: Byte, opaqueData: Word, i: Str, host: Str)

  function ReadR1(p: Packet): Option<PartsR1> {
    match (First(p.params, PUZZLE), First(p.params, HOST_ID))
    case (Some(Puzzle(k, _, o, i)), Some(HostId(_, host, _))) =>
      if |host| < 2 || |i| != BLOCK || k > 128 then None else Some(PartsR1(k, o, i, host))
    case _ => None
  }

  predicate SolvesR1(c: Suite, p: Packet, m: PartsR1, j: Str) {
    m.k <= 128 && PZ.BigEndian(c.cmac(m.i, p.receiverHit + p.senderHit + j)) < Pow2(128 - m.k)
  }

  /** The initiator's handler on any R1 that the gate lets through: it crashes exactly when
      something is missing or has a wrong size, it goes on searching exactly as long as no drawn
      candidate solves the puzzle, and otherwise it takes over the derived keys, the puzzle value
      and its session value, and answers with the first solution. It stores nothing. */
  lemma AnsweredR1Iff(c: Suite, priv: Str, conn: ConnState, p: Packet, given: Inputs)
    requires p.kind == R1 && c.Lawful()
    ensures var e := Dispatch(c, priv, conn, p, given);
            && (!Admits(conn.state, R1) ==> e == Done(conn, None, None))
            && (e.Fault? <==> Admits(conn.state, R1) && ReadR1(p).None?)
            && (e.Searching? <==> Admits(conn.state, R1) && ReadR1(p).Some?
                                  && forall j :: j in given.drawn ==> !SolvesR1(c, p, ReadR1(p).value, j))
            && (Admits(conn.state, R1) && e.Done? ==>
                && e.sa == None && e.reply.Some?
                && e.conn == TakesR1(c, priv, conn, p, ReadR1(p).value, given.session).(state := I2_SENT)
                && exists n: nat :: AnswersWith(c, priv, p, ReadR1(p).value, given, n, e.reply.value))
  {
    hide Admits, First, AnswersWith, TakesR1, SolvesR1, R1Step;
    FirstHasType(p.params, PUZZLE);
    FirstHasType(p.params, HOST_ID);
    if First(p.params, PUZZLE).Some? && First(p.params, HOST_ID).Some? {
      HandlesR1(c, priv, conn, p, First(p.params, PUZZLE).value, First(p.params, HOST_ID).value, given);
    }
  }

  function TakesR1(c: Suite, priv: Str, conn: ConnState, p: Packet, m: PartsR1, x: Block): ConnState {
    var k := KD.Derive(c, p.senderHit, p.receiverHit, m.i, c.ecdh(m.host, priv));
    conn.(randomI := m.i, sessionX := x, localEK := k.iek, localIK := k.iik, remoteEK := k.rek, remoteIK := k.rik)
  }

  /** The reply is the I2 for the `n`-th candidate, the first that solves the puzzle. */
  predicate AnswersWith(c: Suite, priv: Str, p: Packet, m: PartsR1, given: Inputs, n: nat, r: Packet) {
    var k := KD.Derive(c, p.senderHit, p.receiverHit, m.i, c.ecdh(m.host, priv));
    && n < |given.drawn| && SolvesR1(c, p, m, given.drawn[n])
    && (forall l :: 0 <= l < n ==> !SolvesR1(c, p, m, given.drawn[l]))
    && Answers(r, p, I2) && |r.params| == 5
    && r.params[0] == Solution(m.k, m.opaqueData, m.i, given.drawn[n])
    && r.params[1] == Cipher(2)
    && r.params[2].EncryptedKey? && Seals(c, k.iek, m.i, r.params[2].data, given.session)
    && r.params[3] == HostId(0, c.hostId(priv), [])
    && r.params[4].HipMac3? && MacIs(c, k.iik, r, r.params[4].data)
  }

  lemma HandlesR1(c: Suite, priv: Str, conn: ConnState, p: Packet, puzzle: HipParam, host: HipParam, given: Inputs)
    requires puzzle.Puzzle? && host.HostId? && c.Lawful()
    ensures var m := PartsR1(puzzle.complexity, puzzle.opaqueData, puzzle.randomI, host.hostId);
            var e := R1Step(c, priv, conn, p, puzzle, host, given.drawn, given.session);
            && (e.Fault? <==> |host.hostId| < 2 || |puzzle.randomI| != BLOCK || puzzle.complexity > 128)
            && (e.Searching? <==> !e.Fault? && forall j :: j in given.drawn ==> !SolvesR1(c, p, m, j))
            && (e.Done? ==>
                && e.sa == None && e.reply.Some? && e.conn == TakesR1(c, priv, conn, p, m, given.session)
                && exists n: nat :: AnswersWith(c, priv, p, m, given, n, e.reply.value))
  {
    hide SolvesR1, PZ.Solves, KD.Derive, SignedI2, AnswersWith, TakesR1, PZ.FirstSolution;
    if |host.hostId| >= 2 && |puzzle.randomI| == BLOCK && puzzle.complexity <= 128 {
      var m := PartsR1(puzzle.complexity, puzzle.opaqueData, puzzle.randomI, host.hostId);
      var j := PZ.FirstSolution(c, m.i, p.receiverHit, p.senderHit, m.k, given.drawn);
      SolvesR1Iff(c, p, m, given.drawn);
      StepR1(c, priv, conn, p, puzzle, host, m, given);
      hide R1Step;
      if j.Some? {
        var n := PZ.FirstSolutionAt(c, m.i, p.receiverHit, p.senderHit, m.k, given.drawn);
        var k := KD.Derive(c, p.senderHit, p.receiverHit, m.i, c.ecdh(m.host, priv));
        FoundAnswers(c, priv, p, puzzle, m, given, n, k);
      }
    }
  }

  lemma SolvesR1Iff(c: Suite, p: Packet, m: PartsR1, drawn: seq<Block>)
    requires m.k <= 128
    ensures forall j :: j in drawn ==> (SolvesR1(c, p, m, j) <==> PZ.Solves(c, m.i, p.receiverHit, p.senderHit, j, m.k))
  {
    forall j | j in drawn
      ensures SolvesR1(c, p, m, j) <==> PZ.Solves(c, m.i, p.receiverHit, p.senderHit, j, m.k)
    {
      PZ.SolvesIff(c, m.i, p.receiverHit, p.senderHit, j, m.k);
    }
  }

  lemma StepR1(c: Suite, priv: Str, conn: ConnState, p: Packet, puzzle: HipParam, host: HipParam, m: PartsR1,
               given: Inputs)
    requires puzzle.Puzzle? && host.HostId?
    requires m == PartsR1(puzzle.complexity, puzzle.opaqueData, puzzle.randomI, host.hostId)
    requires |m.host| >= 2 && |m.i| == BLOCK && m.k <= 128
    ensures var j := PZ.FirstSolution(c, m.i, p.receiverHit, p.senderHit, m.k, given.drawn);
            var k := KD.Derive(c, p.senderHit, p.receiverHit, m.i, c.ecdh(m.host, priv));
            R1Step(c, priv, conn, p, puzzle, host, given.drawn, given.session) ==
            if j.None? then Searching
            else Done(TakesR1(c, priv, conn, p, m, given.session),
                      Some(SignedI2(c, priv, p, puzzle, j.value, k, given.session)), None)
  {
    hide PZ.Solves, KD.Derive, SignedI2, PZ.FirstSolution;
  }

  lemma FoundAnswers(c: Suite, priv: Str, p: Packet, puzzle: HipParam, m: PartsR1, given: Inputs, n: nat, k: KD.Keys)
    requires puzzle.Puzzle? && m == PartsR1(puzzle.complexity, puzzle.opaqueData, puzzle.randomI, m.host)
    requires |m.i| == BLOCK && c.Lawful() && n < |given.drawn| && SolvesR1(c, p, m, given.drawn[n])
    requires forall l :: 0 <= l < n ==> !SolvesR1(c, p, m, given.drawn[l])
    requires k == KD.Derive(c, p.senderHit, p.receiverHit, m.i, c.ecdh(m.host, priv))
    ensures AnswersWith(c, priv, p, m, given, n, SignedI2(c, priv, p, puzzle, given.drawn[n], k, given.session))
  {
    hide SolvesR1, KD.Derive, SignedI2, Seals, MacIs, Answers;
    SentI2(c, priv, p, puzzle, given.drawn[n], k, given.session);
  }

  // ---------------------------------------------------------------- R2

  /** What an R2 must hold. */
  datatype PartsR2 = PartsR2(data: Str, groups: Str, mac: Str)

  function ReadR2(p: Packet): Option<PartsR2> {
    match (First(p.params, ENCRYPTED_KEY), First(p.params, DH_GROUP_LIST), First(p.params, HIP_MAC_3))
    case (Some(EncryptedKey(data)), Some(DhGroupList(groups)), Some(HipMac3(mac))) => Some(PartsR2(data, groups, mac))
    case _ => None
  }

  /** The MAC is right under the responder's integrity key, the groups are those offered, and the
      session value opens under its encryption key. */
  predicate Completes(c: Suite, conn: ConnState, p: Packet, m: PartsR2) {
    && MacIs(c, conn.remoteIK, p, m.mac) && m.groups == conn.dhGroupList
    && Opens(c, conn.remoteEK, conn.randomI, m.data)
  }

  /** An R2 that the handler returns from never sends; an association is stored exactly when the
      gate let it through, it holds the three parameters, and they are right. It is made from the
      session value sent last and the one received; otherwise the session values stay. */
  lemma AcceptedR2Iff(c: Suite, priv: Str, conn: ConnState, p: Packet, given: Inputs)
    requires p.kind == R2 && Dispatch(c, priv, conn, p, given).Done?
    ensures var e := Dispatch(c, priv, conn, p, given);
            && e.reply == None
            && (e.sa.Some? <==>
                Admits(conn.state, R2) && ReadR2(p).Some? && Completes(c, conn, p, ReadR2(p).value))
            && (e.sa.Some? ==>
                var m := ReadR2(p).value;
                var y := Inside(c, conn.remoteEK, conn.randomI, m.data);
                var k := KD.Derive(c, p.senderHit, p.receiverHit, conn.randomI, conn.sessionX + y);
                && e.sa == Some(Sa(given.ip, p.senderHit, p.receiverHit, k.iek, k.rek))
                && e.conn == conn.(state := ESTABLISHED, sessionY := y))
            && (e.sa.None? ==> e.conn == if Admits(conn.state, R2) then conn.(state := ESTABLISHED) else conn)
  {
    hide Admits, OnR2, ReadR2, Completes;
    if Admits(conn.state, R2) { HandlesR2(c, conn, p, given.ip); }
  }

  lemma HandlesR2(c: Suite, conn: ConnState, p: Packet, ip: int)
    requires OnR2(c, conn, p, ip).Done?
    ensures var e := OnR2(c, conn, p, ip);
            && e.reply == None
            && (e.sa.Some? <==> ReadR2(p).Some? && Completes(c, conn, p, ReadR2(p).value))
            && (e.sa.Some? ==>
                var m := ReadR2(p).value;
                var y := Inside(c, conn.remoteEK, conn.randomI, m.data);
                var k := KD.Derive(c, p.senderHit, p.receiverHit, conn.randomI, conn.sessionX + y);
                && e.sa == Some(Sa(ip, p.senderHit, p.receiverHit, k.iek, k.rek))
                && e.conn == conn.(sessionY := y))
            && (e.sa.None? ==> e.conn == conn)
  {
    FirstHasType(p.params, ENCRYPTED_KEY);
    FirstHasType(p.params, DH_GROUP_LIST);
    FirstHasType(p.params, HIP_MAC_3);
    hide First, Opens, KD.Derive, Covered, Printable, MacIs, Verifies, OpenKey;
    if Checkable(p) { MacIff(c, conn.remoteIK, p); }
    if First(p.params, ENCRYPTED_KEY).Some? {
      OpenKeyIff(c, conn.remoteEK, conn.randomI, First(p.params, ENCRYPTED_KEY).value.data);
    }
  }

  /** When the handler does not return: the packet under the MAC cannot be printed or checked,
      or, with the MAC right, a parameter is missing or the data cannot be opened. */
  lemma FaultsR2Iff(c: Suite, priv: Str, conn: ConnState, p: Packet, given: Inputs)
    requires p.kind == R2
    ensures var e := Dispatch(c, priv, conn, p, given);
            !e.Searching? && (e.Fault? <==> Admits(conn.state, R2) && CrashesR2(c, conn, p))
  {
    hide Admits, OnR2, CrashesR2;
    if Admits(conn.state, R2) { StepR2Crashes(c, conn, p, given.ip); }
  }

  predicate CrashesR2(c: Suite, conn: ConnState, p: Packet) {
    match First(p.params, HIP_MAC_3)
    case Some(HipMac3(mac)) =>
      |conn.remoteIK| != BLOCK || !Printable(Covered(p.params))
      || (MacIs(c, conn.remoteIK, p, mac) && CrashesListed(c, conn, p))
    case _ => false
  }

  predicate CrashesListed(c: Suite, conn: ConnState, p: Packet) {
    match First(p.params, DH_GROUP_LIST)
    case Some(DhGroupList(groups)) =>
      groups == conn.dhGroupList && CrashesOpening(c, conn.remoteEK, p, conn.randomI)
    case _ => true
  }

  lemma StepR2Crashes(c: Suite, conn: ConnState, p: Packet, ip: int)
    ensures !OnR2(c, conn, p, ip).Searching?
    ensures OnR2(c, conn, p, ip).Fault? <==> CrashesR2(c, conn, p)
  {
    FirstHasType(p.params, ENCRYPTED_KEY);
    FirstHasType(p.params, DH_GROUP_LIST);
    FirstHasType(p.params, HIP_MAC_3);
    hide First, Breaks, KD.Derive, Covered, Printable, MacIs, Verifies, OpenKey;
    if Checkable(p) { MacIff(c, conn.remoteIK, p); }
    if First(p.params, ENCRYPTED_KEY).Some? {
      BreaksIff(c, conn.remoteEK, conn.randomI, First(p.params, ENCRYPTED_KEY).value.data);
    }
  }
}
