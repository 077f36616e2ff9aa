/** Whole runs of the exchange between two honest peers, over a network that may lose,
    repeat, delay and reorder their messages, with the initiator starting anew at will. */
module HandshakeRuns {
  import opened Bytes
  import opened Crypto
  import opened Parameters
  import opened Packets
  import opened ConnectionStates
  import opened SaStore
  import opened Handshake
  import opened HandshakeLaws
  import PZ = Puzzle

  /** A datagram arrives: the factory rebuilds the packet and the connection handles it. */
  function Incoming(c: Suite, priv: Str, conn: ConnState, m: Str, given: Inputs): Effect {
    var (status, p) := Unpack(m);
    match status
    case Accepted => Dispatch(c, priv, conn, p, given)
    case Refused => Done(conn, None, None)
    case _ => Fault
  }

  /** Each end's connection to the other, the association it holds for the other's address,
      and every datagram ever sent to it. */
  datatype World = World(ini: ConnState, res: ConnState, saI: Option<Sa>, saR: Option<Sa>,
                         toI: set<Str>, toR: set<Str>)

  datatype Turn =
    | Forget                                  // the initiator removes its association
    | Begin                                   // and sends an I1
    | AtResponder(m: Str, given: Inputs)
    | AtInitiator(m: Str, given: Inputs)

  /** Deliveries take a datagram that was sent, from the other end's address. */
  predicate Possible(s: Peers, w: World, t: Turn) {
    match t
    case AtResponder(m, given) => m in w.toR && given.ip == s.ipI
    case AtInitiator(m, given) => m in w.toI && given.ip == s.ipR
    case _ => true
  }

  datatype Next = Crash | Going(w: World)

  predicate Sendable(reply: Option<Packet>) { reply.Some? ==> Printable(reply.value.params) }

  function Datagrams(reply: Option<Packet>): set<Str>
    requires Sendable(reply)
  {
    if reply.Some? then {ToBytes(reply.value)} else {}
  }

  function Held(before: Option<Sa>, stored: Option<Sa>): Option<Sa> { if stored.Some? then stored else before }

  /** One step. A handler that is still searching for a puzzle solution has not moved yet. */
  function Take(s: Peers, w: World, t: Turn): Next {
    match t
    case Forget => Going(w.(saI := None))
    case Begin =>
      assert Printable(s.MsgI1().params);
      Going(w.(ini := w.ini.(dhGroupList := [DH_GROUP_ECP192], state := I1_SENT),
               toR := w.toR + {ToBytes(s.MsgI1())}))
    case AtResponder(m, given) => Answered(w, Incoming(s.c, s.privR, w.res, m, given))
    case AtInitiator(m, given) => Reacted(w, Incoming(s.c, s.privI, w.ini, m, given))
  }

  /** The world after the responder's, or the initiator's, handler. */
  function Answered(w: World, e: Effect): Next {
    match e
    case Fault => Crash
    case Searching => Going(w)
    case Done(conn, reply, sa) =>
      if !Sendable(reply) then Crash
      else Going(w.(res := conn, saR := Held(w.saR, sa), toI := w.toI + Datagrams(reply)))
  }

  function Reacted(w: World, e: Effect): Next {
    match e
    case Fault => Crash
    case Searching => Going(w)
    case Done(conn, reply, sa) =>
      if !Sendable(reply) then Crash
      else Going(w.(ini := conn, saI := Held(w.saI, sa), toR := w.toR + Datagrams(reply)))
  }

  function Fresh(): ConnState { ConnState([], UNASSOCIATED, [], [], [], [], [], [], []) }

  function Start(): World { World(Fresh(), Fresh(), None, None, {}, {}) }

  /** The world after the turns, if each is possible when it comes and none crashes. */
  function Run(s: Peers, w: World, turns: seq<Turn>): Option<World> {
    if turns == [] then Some(w)
    else
      match Run(s, w, turns[..|turns| - 1])
      case None => None
      case Some(v) =>
        var t := turns[|turns| - 1];
        if !Possible(s, v, t) then None
        else match Take(s, v, t) case Crash => None case Going(u) => Some(u)
  }

  // ---------------------------------------------------------------- single deliveries

  /** The datagram that prints message `p`, which the other end's factory rebuilds. */
  ghost predicate Prints(m: Str, p: Packet) { Travels(p) && m == ToBytes(p) }

  /** A message that travels reaches the connection's gate intact. */
  lemma Arrival(c: Suite, priv: Str, conn: ConnState, m: Str, p: Packet, given: Inputs)
    requires Prints(m, p)
    ensures Incoming(c, priv, conn, m, given) == Dispatch(c, priv, conn, p, given)
  {
    hide Unpack, ToBytes, Dispatch;
  }

  lemma ResponderTakes(s: Peers, w: World, m: Str, p: Packet, given: Inputs)
    requires Prints(m, p)
    ensures Take(s, w, AtResponder(m, given)) == Answered(w, Dispatch(s.c, s.privR, w.res, p, given))
  {
    hide Incoming, Prints, Dispatch, Answered, Reacted;
    Arrival(s.c, s.privR, w.res, m, p, given);
  }

  lemma InitiatorTakes(s: Peers, w: World, m: Str, p: Packet, given: Inputs)
    requires Prints(m, p)
    ensures Take(s, w, AtInitiator(m, given)) == Reacted(w, Dispatch(s.c, s.privI, w.ini, p, given))
  {
    hide Incoming, Prints, Dispatch, Answered, Reacted;
    Arrival(s.c, s.privI, w.ini, m, p, given);
  }

  ghost predicate IsI2(s: Peers, m: Str, j: Block, x: Block) { s.Solution(j) && Prints(m, s.MsgI2(j, x)) }

  predicate Listening(conn: ConnState) { conn.state == UNASSOCIATED || conn.state == R2_SENT }

  predicate Initiating(conn: ConnState) {
    conn.state == UNASSOCIATED || conn.state == I1_SENT || conn.state == I2_SENT || conn.state == ESTABLISHED
  }

  /** A reply that travels is sent, and what the handler left is kept. */
  lemma Replies(w: World, conn: ConnState, p: Packet, sa: Option<Sa>) returns (m: Str)
    requires Travels(p)
    ensures Prints(m, p)
    ensures Answered(w, Done(conn, Some(p), sa)) ==
            Going(w.(res := conn, saR := Held(w.saR, sa), toI := w.toI + {m}))
    ensures Reacted(w, Done(conn, Some(p), sa)) ==
            Going(w.(ini := conn, saI := Held(w.saI, sa), toR := w.toR + {m}))
  {
    m := ToBytes(p);
    hide ToBytes, Unpack;
  }

  lemma DispatchI1(s: Peers, conn: ConnState, given: Inputs)
    requires Listening(conn)
    ensures Dispatch(s.c, s.privR, conn, s.MsgI1(), given) ==
            Done(conn.(state := UNASSOCIATED), Some(s.MsgR1()), None)
  {
    ResponderAnswersI1(s, conn);
    hide OnI1, OnR1, OnI2, OnR2, Peers.MsgR1;
  }

  lemma DeliverI1(s: Peers, w: World, m: Str, given: Inputs) returns (out: Str)
    requires Listening(w.res) && Prints(m, s.MsgI1())
    ensures Prints(out, s.MsgR1())
    ensures Take(s, w, AtResponder(m, given)) ==
            Going(w.(res := w.res.(state := UNASSOCIATED), toI := w.toI + {out}))
  {
    hide Take, Dispatch, Prints, Travels, Peers.MsgR1, Answered;
    RequestsTravel(s);
    DispatchI1(s, w.res, given);
    ResponderTakes(s, w, m, s.MsgI1(), given);
    out := Replies(w, w.res.(state := UNASSOCIATED), s.MsgR1(), None);
  }

  function SentI2(conn: ConnState, s: Peers, x: Block): ConnState {
    WithKeys(conn, s.KeysI()).(randomI := s.RandomI(), sessionX := x, state := I2_SENT)
  }

  function Found(s: Peers, drawn: seq<Block>): Option<Block> {
    PZ.FirstSolution(s.c, s.RandomI(), s.hitI, s.hitR, COMPLEXITY as nat, drawn)
  }

  lemma DeliverR1(s: Peers, w: World, m: Str, given: Inputs) returns (out: Str)
    requires s.Lawful() && Initiating(w.ini) && Prints(m, s.MsgR1())
    ensures var j := Found(s, given.drawn);
            && (j.Some? ==> IsI2(s, out, j.value, given.session))
            && Take(s, w, AtInitiator(m, given)) ==
               if w.ini.state != I1_SENT || j.None? then Going(w)
               else Going(w.(ini := SentI2(w.ini, s, given.session), toR := w.toR + {out}))
  {
    hide Take, Dispatch, Prints, Travels, Peers.MsgI2, Peers.MsgR1, Reacted, SentI2, PZ.Solves, PZ.FirstSolution;
    var j, x := Found(s, given.drawn), given.session;
    DispatchR1(s, w.ini, given);
    InitiatorTakes(s, w, m, s.MsgR1(), given);
    StaysPut(w);
    out := m;
    if j.Some? {
      I2Travels(s, j.value, x);
      out := Replies(w, SentI2(w.ini, s, x), s.MsgI2(j.value, x), None);
    }
  }

  lemma StaysPut(w: World)
    ensures Reacted(w, Searching) == Going(w) && Reacted(w, Done(w.ini, None, None)) == Going(w)
  {
  }

  lemma DispatchR1(s: Peers, conn: ConnState, given: Inputs)
    requires s.Lawful() && Initiating(conn)
    ensures Dispatch(s.c, s.privI, conn, s.MsgR1(), given) ==
            if conn.state != I1_SENT then Done(conn, None, None)
            else if Found(s, given.drawn).None? then Searching
            else Done(SentI2(conn, s, given.session), Some(s.MsgI2(Found(s, given.drawn).value, given.session)), None)
  {
    InitiatorAnswersR1(s, conn, given.drawn, given.session);
    hide OnI1, OnR1, OnI2, OnR2, Peers.MsgI2, PZ.FirstSolution, ReplyR1, WithKeys;
    assert s.MsgR1().kind == R1;
  }

  lemma DispatchI2(s: Peers, conn: ConnState, j: Block, x: Block, given: Inputs)
    requires s.Lawful() && s.Solution(j) && Listening(conn) && given.ip == s.ipI
    ensures Dispatch(s.c, s.privR, conn, s.MsgI2(j, x), given) ==
            Done(AnsweredI2(conn, s, x, given.session), Some(s.MsgR2(given.session)), Some(s.SaR(x, given.session)))
  {
    ResponderAcceptsI2(s, conn, j, x, given.session);
    assert s.MsgI2(j, x).kind == I2;
    hide OnI1, OnR1, OnI2, OnR2, Peers.MsgI2, Peers.MsgR2, Peers.SaR, PZ.Solves, WithKeys;
  }

  function AnsweredI2(conn: ConnState, s: Peers, x: Block, y: Block): ConnState {
    WithKeys(conn, s.KeysR()).(sessionX := x, sessionY := y, state := R2_SENT)
  }

  lemma DeliverI2(s: Peers, w: World, m: Str, j: Block, x: Block, given: Inputs) returns (out: Str)
    requires s.Lawful() && Listening(w.res) && given.ip == s.ipI && IsI2(s, m, j, x)
    ensures Prints(out, s.MsgR2(given.session))
    ensures Take(s, w, AtResponder(m, given)) ==
            Going(w.(res := AnsweredI2(w.res, s, x, given.session), saR := Some(s.SaR(x, given.session)),
                     toI := w.toI + {out}))
  {
    hide Take, Dispatch, Prints, Travels, Peers.MsgI2, Peers.MsgR2, Answered, AnsweredI2, PZ.Solves, Peers.SaR;
    var y := given.session;
    R2Travels(s, y);
    DispatchI2(s, w.res, j, x, given);
    ResponderTakes(s, w, m, s.MsgI2(j, x), given);
    out := Replies(w, AnsweredI2(w.res, s, x, y), s.MsgR2(y), Some(s.SaR(x, y)));
  }

  lemma DispatchR2(s: Peers, conn: ConnState, x: Block, y: Block, given: Inputs)
    requires s.Lawful() && Initiating(conn) && given.ip == s.ipR
    requires conn.state == I2_SENT ==> Awaits(s, conn, x)
    ensures Dispatch(s.c, s.privI, conn, s.MsgR2(y), given) ==
            if conn.state != I2_SENT then Done(conn, None, None)
            else Done(conn.(sessionY := y, state := ESTABLISHED), None, Some(s.SaI(x, y)))
  {
    if conn.state == I2_SENT { InitiatorAcceptsR2(s, conn, x, y); }
    assert s.MsgR2(y).kind == R2;
    hide OnI1, OnR1, OnI2, OnR2, Peers.MsgR2, Peers.SaI, Awaits;
  }

  lemma DeliverR2(s: Peers, w: World, m: Str, x: Block, y: Block, given: Inputs)
    requires s.Lawful() && Initiating(w.ini) && given.ip == s.ipR && Prints(m, s.MsgR2(y))
    requires w.ini.state == I2_SENT ==> Awaits(s, w.ini, x)
    ensures Take(s, w, AtInitiator(m, given)) ==
            if w.ini.state != I2_SENT then Going(w)
            else Going(w.(ini := w.ini.(sessionY := y, state := ESTABLISHED), saI := Some(s.SaI(x, y))))
  {
    hide Take, Dispatch, Prints, Peers.MsgR2, Reacted, Awaits, Peers.SaI;
    DispatchR2(s, w.ini, x, y, given);
    InitiatorTakes(s, w, m, s.MsgR2(y), given);
    StaysPut(w);
    Completes(w, y, s.SaI(x, y));
  }

  lemma Completes(w: World, y: Str, sa: Sa)
    ensures Reacted(w, Done(w.ini.(sessionY := y, state := ESTABLISHED), None, Some(sa))) ==
            Going(w.(ini := w.ini.(sessionY := y, state := ESTABLISHED), saI := Some(sa)))
  {
  }

  // ---------------------------------------------------------------- every run

  /** The datagrams that honest handlers send. */
  ghost predicate SentByInitiator(s: Peers, m: Str) {
    Prints(m, s.MsgI1()) || exists j: Block, x: Block :: IsI2(s, m, j, x)
  }

  ghost predicate SentByResponder(s: Peers, w: World, m: Str) {
    Prints(m, s.MsgR1()) || (w.saR.Some? && exists y: Block :: Prints(m, s.MsgR2(y)))
  }

  /** The responder's association is made from the session values its connection holds. */
  predicate ResponderHolds(s: Peers, w: World) {
    w.saR.Some? ==>
      && |w.res.sessionX| == |w.res.sessionY| == BLOCK
      && w.saR == Some(s.SaR(w.res.sessionX, w.res.sessionY))
  }

  /** An established initiator's association, unless it was removed, likewise. */
  predicate InitiatorHolds(s: Peers, w: World) {
    && (w.ini.state == I2_SENT || w.ini.state == ESTABLISHED ==>
        |w.ini.sessionX| == BLOCK && Awaits(s, w.ini, w.ini.sessionX))
    && (w.ini.state == I1_SENT ==> w.ini.dhGroupList == [DH_GROUP_ECP192])
    && (w.ini.state == ESTABLISHED ==>
        && |w.ini.sessionY| == BLOCK && w.saR.Some?
        && (w.saI.Some? ==> w.saI == Some(s.SaI(w.ini.sessionX, w.ini.sessionY))))
  }

  ghost predicate Honest(s: Peers, w: World) {
    && Listening(w.res) && Initiating(w.ini)
    && (forall m :: m in w.toR ==> SentByInitiator(s, m))
    && (forall m :: m in w.toI ==> SentByResponder(s, w, m))
    && ResponderHolds(s, w) && InitiatorHolds(s, w)
  }

  /** What a turn other than `Forget` must keep. */
  ghost predicate Kept(s: Peers, w: World, n: Next) {
    && n.Going? && Honest(s, n.w)
    && (w.saI.Some? ==> n.w.saI.Some?)
    && (n.w.ini.state == ESTABLISHED ==> w.ini.state == ESTABLISHED || n.w.saI.Some?)
  }

  lemma BeginKeeps(s: Peers, w: World)
    requires Honest(s, w)
    ensures Kept(s, w, Take(s, w, Begin))
  {
    hide ToBytes, Unpack, Awaits;
    RequestsTravel(s);
    assert SentByInitiator(s, ToBytes(s.MsgI1()));
  }

  lemma ResponderKeeps(s: Peers, w: World, m: Str, given: Inputs)
    requires s.Lawful() && Honest(s, w) && m in w.toR && given.ip == s.ipI
    ensures Kept(s, w, Take(s, w, AtResponder(m, given)))
  {
    hide Prints, Peers.MsgI1, Peers.MsgR1, Peers.MsgI2, Peers.MsgR2, Peers.SaI, Peers.SaR, Peers.Solution;
    hide Take, Awaits;
    assert SentByInitiator(s, m);
    if j: Block, x: Block :| IsI2(s, m, j, x) {
      var out := DeliverI2(s, w, m, j, x, given);
    } else {
      var out := DeliverI1(s, w, m, given);
    }
  }

  lemma InitiatorKeeps(s: Peers, w: World, m: Str, given: Inputs)
    requires s.Lawful() && Honest(s, w) && m in w.toI && given.ip == s.ipR
    ensures Kept(s, w, Take(s, w, AtInitiator(m, given)))
  {
    hide Prints, Peers.MsgI1, Peers.MsgR1, Peers.MsgI2, Peers.MsgR2, Peers.SaI, Peers.SaR, Peers.Solution;
    hide Take, Found, IsI2;
    assert SentByResponder(s, w, m);
    if Prints(m, s.MsgR1()) {
      var out := DeliverR1(s, w, m, given);
    } else {
      var y: Block :| Prints(m, s.MsgR2(y));
      DeliverR2(s, w, m, if w.ini.state == I2_SENT then w.ini.sessionX else y, y, given);
    }
  }

  /** No possible turn makes either end read outside a buffer or meet a missing parameter,
      and every turn keeps the invariant. */
  lemma TurnKeepsHonest(s: Peers, w: World, t: Turn)
    requires s.Lawful() && Honest(s, w) && Possible(s, w, t)
    ensures Take(s, w, t).Going? && Honest(s, Take(s, w, t).w)
    ensures t != Forget ==> Kept(s, w, Take(s, w, t))
  {
    match t
    case Forget =>
      hide SentByInitiator, Awaits, Peers.SaI, Peers.SaR;
    case Begin =>
      hide Honest, Take;
      BeginKeeps(s, w);
    case AtResponder(m, given) =>
      hide Honest, Take;
      assert m in w.toR;
      ResponderKeeps(s, w, m, given);
    case AtInitiator(m, given) =>
      hide Honest, Take;
      InitiatorKeeps(s, w, m, given);
  }

  lemma {:induction false} RunIsHonest(s: Peers, turns: seq<Turn>)
    requires s.Lawful() && Run(s, Start(), turns).Some?
    ensures Honest(s, Run(s, Start(), turns).value)
    ensures Forget !in turns ==>
              var w := Run(s, Start(), turns).value; w.ini.state == ESTABLISHED ==> w.saI.Some?
  {
    hide Take, Honest, Possible;
    if turns == [] {
      StartIsHonest(s);
    } else {
      var front, t := turns[..|turns| - 1], turns[|turns| - 1];
      RunIsHonest(s, front);
      TurnKeepsHonest(s, Run(s, Start(), front).value, t);
    }
  }

  lemma StartIsHonest(s: Peers)
    ensures Honest(s, Start())
  {
  }

  /** In no run, whatever is lost, repeated or reordered and however often the initiator
      starts anew, does any possible turn crash either end. */
  lemma RunsAreSafe(s: Peers, turns: seq<Turn>, t: Turn)
    requires s.Lawful() && Run(s, Start(), turns).Some?
    requires Possible(s, Run(s, Start(), turns).value, t)
    ensures Take(s, Run(s, Start(), turns).value, t).Going?
  {
    hide Take, Honest, Possible;
    RunIsHonest(s, turns);
    TurnKeepsHonest(s, Run(s, Start(), turns).value, t);
  }

  /** In every run an established initiator that has not removed its association holds one,
      and so does the responder. The two fit crosswise exactly when both pairs of session
      values give the same keys; so they do whenever the R2 that the initiator accepted is
      the responder's last and answered the initiator's current session value. */
  lemma RunsAgree(s: Peers, turns: seq<Turn>)
    requires s.Lawful() && Run(s, Start(), turns).Some?
    ensures var w := Run(s, Start(), turns).value;
            w.ini.state == ESTABLISHED ==>
              && w.saR.Some? && (Forget !in turns ==> w.saI.Some?)
              && |w.ini.sessionX| == |w.ini.sessionY| == |w.res.sessionX| == |w.res.sessionY| == BLOCK
              && (w.saI.Some? ==>
                  var mine, theirs := s.SaI(w.ini.sessionX, w.ini.sessionY), s.SaI(w.res.sessionX, w.res.sessionY);
                  && (Crosswise(w.saI.value, w.saR.value) <==> mine.lEK == theirs.lEK && mine.rEK == theirs.rEK)
                  && (w.ini.sessionX == w.res.sessionX && w.ini.sessionY == w.res.sessionY ==>
                      Crosswise(w.saI.value, w.saR.value)))
  {
    RunIsHonest(s, turns);
    var w := Run(s, Start(), turns).value;
    if w.ini.state == ESTABLISHED {
      hide Run, Crosswise, Awaits, SentByInitiator, SentByResponder, Peers.SaI, Peers.SaR, Peers.Lawful;
      AssociationsFit(s, w.ini.sessionX, w.ini.sessionY, w.res.sessionX, w.res.sessionY);
    }
  }

  // ---------------------------------------------------------------- one exchange

  /** Begin, I1, R1, I2, each delivered once. */
  ghost predicate Opening(s: Peers, turns: seq<Turn>, drawn: seq<Block>, x: Block, y: Block) {
    && |turns| >= 4 && turns[0] == Begin
    && turns[1].AtResponder? && turns[1].given.ip == s.ipI && Prints(turns[1].m, s.MsgI1())
    && turns[2].AtInitiator? && turns[2].given == Inputs(drawn, x, s.ipR) && Prints(turns[2].m, s.MsgR1())
    && Found(s, drawn).Some?
    && turns[3].AtResponder? && turns[3].given.ip == s.ipI && turns[3].given.session == y
    && IsI2(s, turns[3].m, Found(s, drawn).value, x)
  }

  ghost predicate Reply2(s: Peers, t: Turn, y: Block) {
    t.AtInitiator? && t.given.ip == s.ipR && Prints(t.m, s.MsgR2(y))
  }

  /** The same, then R2. */
  ghost predicate Exchange(s: Peers, turns: seq<Turn>, drawn: seq<Block>, x: Block, y: Block) {
    |turns| == 5 && Opening(s, turns, drawn, x, y) && Reply2(s, turns[4], y)
  }

  /** The same opening, but before R2 arrives the initiator starts anew and is given the
      old R1 once more. */
  ghost predicate Overtaken(s: Peers, turns: seq<Turn>, drawn: seq<Block>, x: Block, y: Block, x': Block) {
    && |turns| == 7 && Opening(s, turns, drawn, x, y) && turns[4] == Begin
    && turns[5] == AtInitiator(turns[2].m, Inputs(drawn, x', s.ipR)) && Reply2(s, turns[6], y)
  }

  /** The same opening, but before R2 arrives the responder is given the I2 once more. */
  ghost predicate Repeated(s: Peers, turns: seq<Turn>, drawn: seq<Block>, x: Block, y: Block, y': Block) {
    && |turns| == 6 && Opening(s, turns, drawn, x, y)
    && turns[4] == AtResponder(turns[3].m, Inputs([], y', s.ipI)) && Reply2(s, turns[5], y)
  }

  /** There are such turns whenever the search succeeds. */
  lemma SomeTurns(s: Peers, drawn: seq<Block>, x: Block, y: Block, x': Block, y': Block)
    returns (turns: seq<Turn>, late: seq<Turn>, twice: seq<Turn>)
    requires Found(s, drawn).Some?
    ensures Exchange(s, turns, drawn, x, y) && Overtaken(s, late, drawn, x, y, x')
    ensures Repeated(s, twice, drawn, x, y, y')
  {
    hide Travels, Peers.MsgI1, Peers.MsgR1, Peers.MsgI2, Peers.MsgR2, Peers.Solution, PZ.FirstSolution;
    hide Exchange, Overtaken, Repeated, Opening, Reply2, Prints;
    var j := Found(s, drawn).value;
    FoundSolves(s, drawn);
    RequestsTravel(s);
    I2Travels(s, j, x);
    R2Travels(s, y);
    var m1, m2, m3, m4 := Wire(s.MsgI1()), Wire(s.MsgR1()), Wire(s.MsgI2(j, x)), Wire(s.MsgR2(y));
    var r2 := AtInitiator(m4, Inputs([], y, s.ipR));
    turns := TurnsOf(s, drawn, x, y, m1, m2, m3, [r2]);
    late := TurnsOf(s, drawn, x, y, m1, m2, m3, [Begin, AtInitiator(m2, Inputs(drawn, x', s.ipR)), r2]);
    twice := TurnsOf(s, drawn, x, y, m1, m2, m3, [AtResponder(m3, Inputs([], y', s.ipI)), r2]);
    Endings(s, drawn, x, y, x', y', m2, m3, m4, turns, late, twice);
  }

  lemma FoundSolves(s: Peers, drawn: seq<Block>)
    ensures Found(s, drawn).Some? ==> s.Solution(Found(s, drawn).value)
  {
  }

  /** The opening, followed by other turns. */
  lemma TurnsOf(s: Peers, drawn: seq<Block>, x: Block, y: Block, m1: Str, m2: Str, m3: Str, ending: seq<Turn>)
    returns (turns: seq<Turn>)
    requires Found(s, drawn).Some? && s.Solution(Found(s, drawn).value)
    requires Prints(m1, s.MsgI1()) && Prints(m2, s.MsgR1()) && Prints(m3, s.MsgI2(Found(s, drawn).value, x))
    ensures |turns| == 4 + |ending| && turns[4..] == ending && Opening(s, turns, drawn, x, y)
    ensures turns[2].m == m2 && turns[3].m == m3
  {
    hide Prints, Found, Peers.Solution, Peers.MsgI1, Peers.MsgR1, Peers.MsgI2, Peers.MsgR2;
    var opening := [Begin, AtResponder(m1, Inputs([], y, s.ipI)), AtInitiator(m2, Inputs(drawn, x, s.ipR)),
                    AtResponder(m3, Inputs([], y, s.ipI))];
    turns := opening + ending;
  }

  lemma Endings(s: Peers, drawn: seq<Block>, x: Block, y: Block, x': Block, y': Block, m2: Str, m3: Str, m4: Str,
                turns: seq<Turn>, late: seq<Turn>, twice: seq<Turn>)
    requires Prints(m4, s.MsgR2(y))
    requires |turns| == 5 && |late| == 7 && |twice| == 6
    requires Opening(s, turns, drawn, x, y) && Opening(s, late, drawn, x, y) && Opening(s, twice, drawn, x, y)
    requires late[2].m == m2 && twice[3].m == m3
    requires turns[4..] == [AtInitiator(m4, Inputs([], y, s.ipR))]
    requires late[4..] == [Begin, AtInitiator(m2, Inputs(drawn, x', s.ipR)), AtInitiator(m4, Inputs([], y, s.ipR))]
    requires twice[4..] == [AtResponder(m3, Inputs([], y', s.ipI)), AtInitiator(m4, Inputs([], y, s.ipR))]
    ensures Exchange(s, turns, drawn, x, y) && Overtaken(s, late, drawn, x, y, x')
    ensures Repeated(s, twice, drawn, x, y, y')
  {
    hide Prints, Opening;
    assert turns[4..][0] == turns[4];
    assert late[4..][0] == late[4] && late[4..][1] == late[5] && late[4..][2] == late[6];
    assert twice[4..][0] == twice[4] && twice[4..][1] == twice[5];
  }

  /** The datagram of a message that travels. */
  ghost function Wire(p: Packet): (m: Str)
    requires Travels(p)
    ensures Prints(m, p)
  {
    ToBytes(p)
  }

  lemma PrintsOnce(m: Str, n: Str, p: Packet)
    requires Prints(m, p) && Prints(n, p)
    ensures m == n
  {
    hide ToBytes, Unpack;
  }

  /** From any reachable world, an undisturbed exchange whose search succeeds goes through
      and leaves associations that fit crosswise. */
  lemma ExchangeAgrees(s: Peers, w: World, turns: seq<Turn>, drawn: seq<Block>, x: Block, y: Block)
    requires s.Lawful() && Honest(s, w) && Exchange(s, turns, drawn, x, y)
    ensures var r := Run(s, w, turns);
            && r.Some? && r.value.ini.state == ESTABLISHED
            && r.value.saI == Some(s.SaI(x, y)) && r.value.saR == Some(s.SaR(x, y))
            && Crosswise(s.SaI(x, y), s.SaR(x, y))
  {
    hide Run, Opening, Honest, Peers.SaI, Peers.SaR, Crosswise, Peers.Lawful, Reply2;
    assert turns[..5] == turns;
    AssociationsFit(s, x, y, x, y);
    var w4 := OpeningRuns(s, w, turns, drawn, x, y);
    var w5 := Accepts(s, w, w4, turns, 4, x, y);
    hide *;
  }

  /** Agreement can fail: from any reachable world, an initiator that is overtaken accepts
      an R2 that answers an earlier session value, and mixes it with its newer one. Both
      ends hold associations, fitting exactly when the derived keys happen to coincide. */
  lemma OvertakenDisagrees(s: Peers, w: World, turns: seq<Turn>, drawn: seq<Block>, x: Block, y: Block, x': Block)
    requires s.Lawful() && Honest(s, w) && Overtaken(s, turns, drawn, x, y, x')
    ensures var r := Run(s, w, turns);
            && r.Some? && r.value.ini.state == ESTABLISHED
            && r.value.saI == Some(s.SaI(x', y)) && r.value.saR == Some(s.SaR(x, y))
    ensures Crosswise(s.SaI(x', y), s.SaR(x, y)) <==>
            s.SaI(x', y).lEK == s.SaI(x, y).lEK && s.SaI(x', y).rEK == s.SaI(x, y).rEK
  {
    hide Prints, Run, Opening, Honest, Peers.MsgR1, Peers.SaI, Peers.SaR, Crosswise, Peers.Lawful;
    hide Found, Reply2, Overtaken;
    hide Awaits, AnswerSent, Possible, Take;
    OvertakenParts(s, turns, drawn, x, y, x');
    AssociationsFit(s, x', y, x, y);
    var w4 := OpeningRuns(s, w, turns, drawn, x, y);
    var w6 := StartsOver(s, w, w4, turns, drawn, x, y, x');
    var w7 := Accepts(s, w, w6, turns, 6, x', y);
    hide *;
  }

  lemma OvertakenParts(s: Peers, turns: seq<Turn>, drawn: seq<Block>, x: Block, y: Block, x': Block)
    requires Overtaken(s, turns, drawn, x, y, x')
    ensures |turns| == 7 && turns[..7] == turns && Opening(s, turns, drawn, x, y) && turns[4] == Begin
    ensures turns[2].AtInitiator? && turns[5] == AtInitiator(turns[2].m, Inputs(drawn, x', s.ipR))
    ensures Reply2(s, turns[6], y) && Prints(turns[2].m, s.MsgR1()) && Found(s, drawn).Some?
  {
    hide Prints, IsI2, Found, Peers.MsgR1;
  }

  lemma StartsOver(s: Peers, w: World, w4: World, turns: seq<Turn>, drawn: seq<Block>, x: Block, y: Block, x': Block)
    returns (w6: World)
    requires s.Lawful() && |turns| == 7 && turns[4] == Begin && Run(s, w, turns[..4]) == Some(w4)
    requires turns[2].AtInitiator? && turns[5] == AtInitiator(turns[2].m, Inputs(drawn, x', s.ipR))
    requires HalfWay(s, w4, x, y) && turns[2].m in w4.toI
    requires Prints(turns[2].m, s.MsgR1()) && Found(s, drawn).Some?
    ensures Run(s, w, turns[..6]) == Some(w6) && w6.saR == w4.saR
    ensures w6.ini.state == I2_SENT && Awaits(s, w6.ini, x') && w6.toI == w4.toI
    ensures AnswerSent(s, w4, y) ==> AnswerSent(s, w6, y)
  {
    hide Run, Peers.SaR, Peers.Lawful, Found, Prints, Take, Peers.MsgR1, Peers.MsgI1, Peers.MsgI2, IsI2, HalfWay;
    var sent := BeginAnew(s, w4);
    var w5 := Take(s, w4, Begin).w;
    RunOne(s, w, turns, 4, w4, w5);
    var out := DeliverR1(s, w5, turns[5].m, turns[5].given);
    w6 := Take(s, w5, turns[5]).w;
    RunOne(s, w, turns, 5, w5, w6);
  }

  /** The last turn: an R2 that the initiator waits for. */
  lemma Accepts(s: Peers, w: World, v: World, turns: seq<Turn>, n: nat, x: Block, y: Block) returns (u: World)
    requires s.Lawful() && n < |turns| && Run(s, w, turns[..n]) == Some(v) && Reply2(s, turns[n], y)
    requires v.ini.state == I2_SENT && Awaits(s, v.ini, x) && AnswerSent(s, v, y)
    requires n > 0
    ensures Run(s, w, turns[..n + 1]) == Some(u)
    ensures u.ini.state == ESTABLISHED && u.saI == Some(s.SaI(x, y)) && u.saR == v.saR
  {
    hide Run, Peers.SaI, Peers.Lawful, Prints, Take, Peers.MsgR2, Awaits;
    var m :| m in v.toI && Prints(m, s.MsgR2(y));
    PrintsOnce(m, turns[n].m, s.MsgR2(y));
    DeliverR2(s, v, turns[n].m, x, y, turns[n].given);
    u := Take(s, v, turns[n]).w;
    RunOne(s, w, turns, n, v, u);
  }

  /** So does it when the responder is given the same I2 twice: it draws a second session
      value and replaces its association, and the initiator accepts the first R2. */
  lemma RepeatedDisagrees(s: Peers, w: World, turns: seq<Turn>, drawn: seq<Block>, x: Block, y: Block, y': Block)
    requires s.Lawful() && Honest(s, w) && Repeated(s, turns, drawn, x, y, y')
    ensures var r := Run(s, w, turns);
            && r.Some? && r.value.ini.state == ESTABLISHED
            && r.value.saI == Some(s.SaI(x, y)) && r.value.saR == Some(s.SaR(x, y'))
    ensures Crosswise(s.SaI(x, y), s.SaR(x, y')) <==>
            s.SaI(x, y).lEK == s.SaI(x, y').lEK && s.SaI(x, y).rEK == s.SaI(x, y').rEK
  {
    hide Prints, Run, Opening, Honest, Peers.SaI, Peers.SaR, Crosswise, Peers.Lawful, Found, Reply2, Repeated;
    hide Awaits, AnswerSent, Possible, Take, IsI2, HalfWay;
    RepeatedParts(s, turns, drawn, x, y, y');
    AssociationsFit(s, x, y, x, y');
    var w4 := OpeningRuns(s, w, turns, drawn, x, y);
    var w5 := AnswersAgain(s, w, w4, turns, Found(s, drawn).value, x, y, y');
    var w6 := Accepts(s, w, w5, turns, 5, x, y);
  }

  lemma RepeatedParts(s: Peers, turns: seq<Turn>, drawn: seq<Block>, x: Block, y: Block, y': Block)
    requires Repeated(s, turns, drawn, x, y, y')
    ensures |turns| == 6 && turns[..6] == turns && Opening(s, turns, drawn, x, y) && Found(s, drawn).Some?
    ensures turns[3].AtResponder? && turns[4] == AtResponder(turns[3].m, Inputs([], y', s.ipI))
    ensures IsI2(s, turns[3].m, Found(s, drawn).value, x) && Reply2(s, turns[5], y)
  {
    hide Prints, IsI2, Found;
  }

  lemma AnswersAgain(s: Peers, w: World, w4: World, turns: seq<Turn>, j: Block, x: Block, y: Block, y': Block)
    returns (w5: World)
    requires s.Lawful() && |turns| == 6 && Run(s, w, turns[..4]) == Some(w4) && HalfWay(s, w4, x, y)
    requires turns[3].AtResponder? && turns[4] == AtResponder(turns[3].m, Inputs([], y', s.ipI))
    requires turns[3].m in w4.toR && Listening(w4.res) && IsI2(s, turns[3].m, j, x)
    ensures Run(s, w, turns[..5]) == Some(w5) && w5.saR == Some(s.SaR(x, y'))
    ensures w5.ini.state == I2_SENT && Awaits(s, w5.ini, x) && AnswerSent(s, w5, y)
  {
    hide Run, Peers.SaR, Peers.Lawful, Prints, Take, Peers.MsgR2, Peers.MsgI2, IsI2, Awaits;
    var out := DeliverI2(s, w4, turns[3].m, j, x, turns[4].given);
    w5 := Take(s, w4, turns[4]).w;
    RunOne(s, w, turns, 4, w4, w5);
  }

  /** The initiator has sent its I2 with `x`; the responder has answered with `y`. */
  ghost predicate HalfWay(s: Peers, w: World, x: Block, y: Block) {
    w.ini.state == I2_SENT && Awaits(s, w.ini, x) && w.saR == Some(s.SaR(x, y)) && AnswerSent(s, w, y)
  }

  ghost predicate AnswerSent(s: Peers, w: World, y: Block) {
    exists m :: m in w.toI && Prints(m, s.MsgR2(y))
  }

  lemma OpeningRuns(s: Peers, w: World, turns: seq<Turn>, drawn: seq<Block>, x: Block, y: Block)
    returns (w4: World)
    requires s.Lawful() && Honest(s, w) && Opening(s, turns, drawn, x, y)
    ensures Run(s, w, turns[..4]) == Some(w4) && HalfWay(s, w4, x, y) && turns[2].m in w4.toI
    ensures turns[3].m in w4.toR && Listening(w4.res)
  {
    hide Honest, Prints, Run, Opening, HalfWay;
    var w2 := FirstHalf(s, w, turns, drawn, x, y);
    w4 := SecondHalf(s, w, w2, turns, drawn, x, y);
  }

  lemma FirstHalf(s: Peers, w: World, turns: seq<Turn>, drawn: seq<Block>, x: Block, y: Block)
    returns (w2: World)
    requires s.Lawful() && Honest(s, w) && Opening(s, turns, drawn, x, y)
    ensures Run(s, w, turns[..2]) == Some(w2) && w2.ini.state == I1_SENT && Listening(w2.res)
    ensures w2.ini.dhGroupList == [DH_GROUP_ECP192] && turns[2].m in w2.toI
  {
    hide Prints, Run, Peers.MsgI1, Peers.MsgR1, Peers.MsgI2, Peers.MsgR2, Peers.Solution, Found, Take;
    hide SentByInitiator, SentByResponder, InitiatorHolds, ResponderHolds, Peers.Lawful, IsI2;
    var sent := BeginAnew(s, w);
    PrintsOnce(sent, turns[1].m, s.MsgI1());
    var w1 := Take(s, w, Begin).w;
    RunOne(s, w, turns, 0, w, w1);
    var out := DeliverI1(s, w1, turns[1].m, turns[1].given);
    PrintsOnce(out, turns[2].m, s.MsgR1());
    w2 := Take(s, w1, turns[1]).w;
    RunOne(s, w, turns, 1, w1, w2);
  }

  lemma SecondHalf(s: Peers, w: World, w2: World, turns: seq<Turn>, drawn: seq<Block>, x: Block, y: Block)
    returns (w4: World)
    requires s.Lawful() && Opening(s, turns, drawn, x, y)
    requires Run(s, w, turns[..2]) == Some(w2) && w2.ini.state == I1_SENT && Listening(w2.res)
    requires w2.ini.dhGroupList == [DH_GROUP_ECP192] && turns[2].m in w2.toI
    ensures Run(s, w, turns[..4]) == Some(w4) && HalfWay(s, w4, x, y) && turns[2].m in w4.toI
    ensures turns[3].m in w4.toR && Listening(w4.res)
  {
    hide Prints, Run, Peers.MsgI1, Peers.MsgR1, Peers.MsgI2, Peers.MsgR2, Peers.SaI, Peers.SaR;
    hide Peers.Solution, Found, Take;
    hide Peers.Lawful;
    var m2 := DeliverR1(s, w2, turns[2].m, turns[2].given);
    PrintsOnce(m2, turns[3].m, s.MsgI2(Found(s, drawn).value, x));
    var w3 := Take(s, w2, turns[2]).w;
    RunOne(s, w, turns, 2, w2, w3);
    var out := DeliverI2(s, w3, turns[3].m, Found(s, drawn).value, x, turns[3].given);
    w4 := Take(s, w3, turns[3]).w;
    RunOne(s, w, turns, 3, w3, w4);
    assert Awaits(s, w4.ini, x);
    assert out in w4.toI;
  }

  /** The run one turn longer. */
  lemma RunOne(s: Peers, w: World, turns: seq<Turn>, n: nat, v: World, u: World)
    requires n < |turns| && (if n == 0 then v == w else Run(s, w, turns[..n]) == Some(v))
    requires Possible(s, v, turns[n]) && Take(s, v, turns[n]) == Going(u)
    ensures Run(s, w, turns[..n + 1]) == Some(u)
  {
    hide Take, Possible;
    assert turns[..n + 1][..n] == turns[..n];
  }

  lemma BeginAnew(s: Peers, w: World) returns (m: Str)
    ensures Prints(m, s.MsgI1())
    ensures Take(s, w, Begin) ==
            Going(w.(ini := w.ini.(dhGroupList := [DH_GROUP_ECP192], state := I1_SENT), toR := w.toR + {m}))
  {
    RequestsTravel(s);
    m := ToBytes(s.MsgI1());
    hide ToBytes, Unpack;
  }
}
