/** When the associations of a run fit each other: a condition on the turns under which they
    always do, and a run in which they do not. */
module Agreement {
  import opened Bytes
  import opened Crypto
  import opened Packets
  import opened ConnectionStates
  import opened SaStore
  import opened Handshake
  import opened HandshakeLaws
  import opened HandshakeRuns
  import KD = KeyDeriv
  import PZ = Puzzle

  /** The responder is given an I2. */
  predicate TakesI2(t: Turn) {
    t.AtResponder? && Unpack(t.m).0 == Accepted && Unpack(t.m).1.kind == I2
  }

  /** How often the initiator starts, and how often the responder is given an I2. */
  function Begins(turns: seq<Turn>): nat {
    if turns == [] then 0 else Begins(turns[..|turns| - 1]) + (if turns[|turns| - 1].Begin? then 1 else 0)
  }

  function I2Deliveries(turns: seq<Turn>): nat {
    if turns == [] then 0 else I2Deliveries(turns[..|turns| - 1]) + (if TakesI2(turns[|turns| - 1]) then 1 else 0)
  }

  predicate Chosen(conn: ConnState) { conn.state == I2_SENT || conn.state == ESTABLISHED }

  ghost predicate WithSession(s: Peers, m: Str, x: Block) { exists j: Block :: IsI2(s, m, j, x) }

  /** What the responder is sent: I1s, and I2s with the initiator's one session value. */
  ghost predicate OneX(s: Peers, w: World) {
    && (w.ini.state == I1_SENT ==> forall m :: m in w.toR ==> Prints(m, s.MsgI1()))
    && (Chosen(w.ini) ==>
        && |w.ini.sessionX| == BLOCK
        && forall m :: m in w.toR ==> Prints(m, s.MsgI1()) || WithSession(s, m, w.ini.sessionX))
  }

  /** What the initiator is sent: R1s, and R2s with the responder's one session value. */
  ghost predicate OneY(s: Peers, w: World, d: nat) {
    && (d == 0 ==> w.ini.state != ESTABLISHED && forall m :: m in w.toI ==> Prints(m, s.MsgR1()))
    && (d == 1 ==>
        && Chosen(w.ini) && w.res.sessionX == w.ini.sessionX && |w.res.sessionY| == BLOCK
        && forall m :: m in w.toI ==> Prints(m, s.MsgR1()) || Prints(m, s.MsgR2(w.res.sessionY)))
    && (w.ini.state == ESTABLISHED ==> w.ini.sessionY == w.res.sessionY)
  }

  /** After `b` starts and `d` I2s given to the responder, neither more than one. */
  ghost predicate Single(s: Peers, w: World, b: nat, d: nat) {
    && b <= 1 && d <= 1
    && (b == 0 ==> w.toR == {} && w.toI == {} && w.ini.state == UNASSOCIATED && d == 0)
    && (b == 1 ==> w.ini.state != UNASSOCIATED)
    && (w.ini.state == I1_SENT ==> d == 0)
    && OneX(s, w) && OneY(s, w, d)
  }

  ghost predicate SingleNext(s: Peers, n: Next, b: nat, d: nat) {
    n.Going? ==> Single(s, n.w, b, d)
  }

  lemma BeginSingle(s: Peers, w: World)
    requires Single(s, w, 0, 0)
    ensures SingleNext(s, Take(s, w, Begin), 1, 0)
  {
    hide Prints;
    var m := BeginAnew(s, w);
  }

  lemma I1Single(s: Peers, w: World, m: Str, given: Inputs, b: nat, d: nat)
    requires Single(s, w, b, d) && Listening(w.res) && m in w.toR && Prints(m, s.MsgI1())
    ensures SingleNext(s, Take(s, w, AtResponder(m, given)), b, d)
  {
    hide Prints, Take, Peers.MsgI1, Peers.MsgR1, Peers.MsgR2, WithSession;
    var out := DeliverI1(s, w, m, given);
  }

  lemma I2Single(s: Peers, w: World, m: Str, given: Inputs, j: Block)
    requires s.Lawful() && Single(s, w, 1, 0) && Listening(w.res) && Chosen(w.ini)
    requires given.ip == s.ipI && IsI2(s, m, j, w.ini.sessionX)
    ensures SingleNext(s, Take(s, w, AtResponder(m, given)), 1, 1)
  {
    hide Prints, Take, Peers.MsgI1, Peers.MsgR1, Peers.MsgI2, Peers.MsgR2, WithSession, Peers.Solution, Peers.Lawful;
    var out := DeliverI2(s, w, m, j, w.ini.sessionX, given);
  }

  lemma R1Single(s: Peers, w: World, m: Str, given: Inputs, d: nat)
    requires s.Lawful() && Single(s, w, 1, d) && Initiating(w.ini) && m in w.toI && Prints(m, s.MsgR1())
    ensures SingleNext(s, Take(s, w, AtInitiator(m, given)), 1, d)
  {
    hide Prints, Take, Peers.MsgI1, Peers.MsgR1, Peers.MsgI2, Peers.MsgR2, Peers.Solution, Peers.Lawful, IsI2, Found;
    var out := DeliverR1(s, w, m, given);
    var j := Found(s, given.drawn);
    assert j.Some? ==> IsI2(s, out, j.value, given.session);
    assert j.Some? ==> WithSession(s, out, given.session);
  }

  lemma R2Single(s: Peers, w: World, m: Str, given: Inputs)
    requires s.Lawful() && Single(s, w, 1, 1) && Initiating(w.ini) && InitiatorHolds(s, w)
    requires given.ip == s.ipR && Prints(m, s.MsgR2(w.res.sessionY))
    ensures SingleNext(s, Take(s, w, AtInitiator(m, given)), 1, 1)
  {
    hide Prints, Take, Peers.MsgI1, Peers.MsgR1, Peers.MsgR2, Peers.Lawful, WithSession, Awaits, Peers.SaI, Peers.SaR;
    DeliverR2(s, w, m, w.ini.sessionX, w.res.sessionY, given);
  }

  lemma ForgetSingle(s: Peers, w: World, b: nat, d: nat)
    requires Single(s, w, b, d)
    ensures SingleNext(s, Take(s, w, Forget), b, d)
  {
    hide Prints, WithSession;
  }

  lemma ResponderSingle(s: Peers, w: World, m: Str, given: Inputs, b: nat, d: nat)
    requires s.Lawful() && Single(s, w, b, d) && Listening(w.res) && Initiating(w.ini)
    requires m in w.toR && given.ip == s.ipI
    requires TakesI2(AtResponder(m, given)) ==> d == 0
    ensures SingleNext(s, Take(s, w, AtResponder(m, given)), b, if TakesI2(AtResponder(m, given)) then d + 1 else d)
  {
    hide Prints, Peers.Lawful, TakesI2, IsI2, Take, SingleNext, Peers.MsgI1, Peers.MsgR1, Peers.MsgR2;
    if Prints(m, s.MsgI1()) {
      I1IsNoI2(s, m, given);
      I1Single(s, w, m, given, b, d);
    } else {
      assert WithSession(s, m, w.ini.sessionX);
      var j: Block :| IsI2(s, m, j, w.ini.sessionX);
      I2Taken(s, m, given, j, w.ini.sessionX);
      I2Single(s, w, m, given, j);
    }
  }

  lemma InitiatorSingle(s: Peers, w: World, m: Str, given: Inputs, b: nat, d: nat)
    requires s.Lawful() && Single(s, w, b, d) && Initiating(w.ini) && InitiatorHolds(s, w)
    requires m in w.toI && given.ip == s.ipR
    ensures SingleNext(s, Take(s, w, AtInitiator(m, given)), b, d)
  {
    hide Prints, Peers.Lawful, WithSession, Take, SingleNext, InitiatorHolds, Peers.MsgI1, Peers.MsgR1, Peers.MsgR2;
    if Prints(m, s.MsgR1()) {
      R1Single(s, w, m, given, d);
    } else {
      R2Single(s, w, m, given);
    }
  }

  lemma SingleKept(s: Peers, w: World, t: Turn, b: nat, d: nat)
    requires s.Lawful() && Honest(s, w) && Possible(s, w, t) && Single(s, w, b, d)
    requires (t.Begin? ==> b == 0) && (TakesI2(t) ==> d == 0)
    ensures SingleNext(s, Take(s, w, t), if t.Begin? then b + 1 else b, if TakesI2(t) then d + 1 else d)
  {
    hide Take, SingleNext, Peers.Lawful, SentByInitiator, SentByResponder, ResponderHolds, InitiatorHolds, OneX, OneY;
    match t
    case Forget => ForgetSingle(s, w, b, d);
    case Begin => BeginSingle(s, w);
    case AtResponder(m, given) =>
      hide TakesI2;
      ResponderSingle(s, w, m, given, b, d);
    case AtInitiator(m, given) => InitiatorSingle(s, w, m, given, b, d);
  }

  lemma KindOf(m: Str, given: Inputs, p: Packet)
    requires Prints(m, p)
    ensures TakesI2(AtResponder(m, given)) <==> p.kind == I2
  {
    hide ToBytes, Unpack;
  }

  lemma I1IsNoI2(s: Peers, m: Str, given: Inputs)
    requires Prints(m, s.MsgI1())
    ensures !TakesI2(AtResponder(m, given))
  {
    hide TakesI2, Prints;
    KindOf(m, given, s.MsgI1());
  }

  lemma I2Taken(s: Peers, m: Str, given: Inputs, j: Block, x: Block)
    requires IsI2(s, m, j, x)
    ensures TakesI2(AtResponder(m, given))
  {
    hide TakesI2, Prints, Peers.Solution, KD.Derive, SealedKey, Cmac;
    KindOf(m, given, s.MsgI2(j, x));
  }

  lemma {:induction false} RunIsSingle(s: Peers, turns: seq<Turn>)
    requires s.Lawful() && HandshakeRuns.Run(s, Start(), turns).Some? && Begins(turns) <= 1 && I2Deliveries(turns) <= 1
    ensures Single(s, HandshakeRuns.Run(s, Start(), turns).value, Begins(turns), I2Deliveries(turns))
  {
    hide Take, Honest, Possible, TakesI2, Single;
    if turns == [] {
      StartIsSingle(s);
    } else {
      var front, t := turns[..|turns| - 1], turns[|turns| - 1];
      RunIsHonest(s, front);
      RunIsSingle(s, front);
      var w := HandshakeRuns.Run(s, Start(), front).value;
      SingleKept(s, w, t, Begins(front), I2Deliveries(front));
      TurnKeepsHonest(s, w, t);
    }
  }

  lemma StartIsSingle(s: Peers)
    ensures Single(s, Start(), 0, 0)
  {
  }

  /** In every run in which the initiator starts at most once and the responder is given at
      most one I2, whatever else is lost, repeated or reordered, an association that an
      established initiator holds and the responder's fit crosswise. */
  lemma OneExchangeAgrees(s: Peers, turns: seq<Turn>)
    requires s.Lawful() && HandshakeRuns.Run(s, Start(), turns).Some? && Begins(turns) <= 1 && I2Deliveries(turns) <= 1
    ensures var w := HandshakeRuns.Run(s, Start(), turns).value;
            w.ini.state == ESTABLISHED ==>
              && w.saR.Some? && (Forget !in turns ==> w.saI.Some?)
              && (w.saI.Some? ==> Crosswise(w.saI.value, w.saR.value))
  {
    RunsAgree(s, turns);
    RunIsSingle(s, turns);
    hide HandshakeRuns.Run, Crosswise, Peers.SaI, Peers.SaR, Peers.Lawful, Prints, WithSession, Begins, I2Deliveries;
  }

  // ---------------------------------------------------------------- drawn session values

  /** The initiator's turns draw session values from `dx`, the responder's from `dy`. */
  predicate DrawsFrom(t: Turn, dx: set<Block>, dy: set<Block>) {
    (t.AtInitiator? ==> t.given.session in dx) && (t.AtResponder? ==> t.given.session in dy)
  }

  /** Of the values drawn, only equal pairs give equal keys. */
  ghost predicate NoCollisions(s: Peers, dx: set<Block>, dy: set<Block>) {
    forall x: Block, y: Block, x': Block, y': Block ::
      x in dx && x' in dx && y in dy && y' in dy && SameKeys(s.SaI(x, y), s.SaI(x', y')) ==> x == x' && y == y'
  }

  predicate SameKeys(a: Sa, b: Sa) { a.lEK == b.lEK && a.rEK == b.rEK }

  ghost predicate CarriesX(s: Peers, m: Str, dx: set<Block>) { exists x: Block :: x in dx && WithSession(s, m, x) }

  ghost predicate CarriesY(s: Peers, m: Str, dy: set<Block>) {
    exists y: Block :: y in dy && Prints(m, s.MsgR2(y))
  }

  /** Every session value that is held or was sent has been drawn. */
  ghost predicate Drawn(s: Peers, w: World, dx: set<Block>, dy: set<Block>) {
    && (forall m :: m in w.toR ==> Prints(m, s.MsgI1()) || CarriesX(s, m, dx))
    && (forall m :: m in w.toI ==> Prints(m, s.MsgR1()) || CarriesY(s, m, dy))
    && (Chosen(w.ini) ==> w.ini.sessionX in dx)
    && (w.ini.state == ESTABLISHED ==> w.ini.sessionY in dy)
    && (w.saR.Some? ==> w.res.sessionX in dx && w.res.sessionY in dy)
  }

  ghost predicate DrawnNext(s: Peers, n: Next, dx: set<Block>, dy: set<Block>) {
    n.Going? ==> Drawn(s, n.w, dx, dy)
  }

  lemma BeginDrawn(s: Peers, w: World, dx: set<Block>, dy: set<Block>)
    requires Drawn(s, w, dx, dy)
    ensures DrawnNext(s, Take(s, w, Begin), dx, dy)
  {
    hide Prints, CarriesX, CarriesY, Take;
    var m := BeginAnew(s, w);
  }

  lemma ForgetDrawn(s: Peers, w: World, dx: set<Block>, dy: set<Block>)
    requires Drawn(s, w, dx, dy)
    ensures DrawnNext(s, Take(s, w, Forget), dx, dy)
  {
    hide Prints, CarriesX, CarriesY;
  }

  lemma ResponderDrawn(s: Peers, w: World, m: Str, given: Inputs, dx: set<Block>, dy: set<Block>)
    requires s.Lawful() && Drawn(s, w, dx, dy) && Listening(w.res)
    requires m in w.toR && given.ip == s.ipI && given.session in dy
    ensures DrawnNext(s, Take(s, w, AtResponder(m, given)), dx, dy)
  {
    hide Prints, Take, Peers.MsgI1, Peers.MsgR1, Peers.MsgI2, Peers.MsgR2, IsI2, Peers.Lawful;
    if Prints(m, s.MsgI1()) {
      var out := DeliverI1(s, w, m, given);
    } else {
      var x: Block :| x in dx && WithSession(s, m, x);
      var j: Block :| IsI2(s, m, j, x);
      var out := DeliverI2(s, w, m, j, x, given);
      assert CarriesY(s, out, dy);
    }
  }

  lemma InitiatorDrawn(s: Peers, w: World, m: Str, given: Inputs, dx: set<Block>, dy: set<Block>)
    requires s.Lawful() && Drawn(s, w, dx, dy) && Initiating(w.ini) && InitiatorHolds(s, w)
    requires m in w.toI && given.ip == s.ipR && given.session in dx
    ensures DrawnNext(s, Take(s, w, AtInitiator(m, given)), dx, dy)
  {
    hide Prints, Take, Peers.MsgI1, Peers.MsgR1, Peers.MsgI2, Peers.MsgR2, IsI2, Peers.Lawful, Awaits, Found;
    if Prints(m, s.MsgR1()) {
      var out := DeliverR1(s, w, m, given);
      var j := Found(s, given.drawn);
      assert j.Some? ==> IsI2(s, out, j.value, given.session);
      assert j.Some? ==> WithSession(s, out, given.session);
      assert j.Some? ==> CarriesX(s, out, dx);
    } else {
      var y: Block :| y in dy && Prints(m, s.MsgR2(y));
      DeliverR2(s, w, m, if w.ini.state == I2_SENT then w.ini.sessionX else y, y, given);
    }
  }

  lemma DrawnKept(s: Peers, w: World, t: Turn, dx: set<Block>, dy: set<Block>)
    requires s.Lawful() && Honest(s, w) && Possible(s, w, t) && Drawn(s, w, dx, dy) && DrawsFrom(t, dx, dy)
    ensures DrawnNext(s, Take(s, w, t), dx, dy)
  {
    hide Take, DrawnNext, Drawn, Peers.Lawful, SentByInitiator, SentByResponder, ResponderHolds, InitiatorHolds;
    match t
    case Forget => ForgetDrawn(s, w, dx, dy);
    case Begin => BeginDrawn(s, w, dx, dy);
    case AtResponder(m, given) => ResponderDrawn(s, w, m, given, dx, dy);
    case AtInitiator(m, given) => InitiatorDrawn(s, w, m, given, dx, dy);
  }

  lemma {:induction false} RunIsDrawn(s: Peers, turns: seq<Turn>, dx: set<Block>, dy: set<Block>)
    requires s.Lawful() && HandshakeRuns.Run(s, Start(), turns).Some?
    requires forall t :: t in turns ==> DrawsFrom(t, dx, dy)
    ensures Drawn(s, HandshakeRuns.Run(s, Start(), turns).value, dx, dy)
  {
    hide Take, Honest, Possible, Drawn, DrawsFrom;
    if turns == [] {
      StartIsDrawn(s, dx, dy);
    } else {
      var front, t := turns[..|turns| - 1], turns[|turns| - 1];
      RunIsHonest(s, front);
      RunIsDrawn(s, front, dx, dy);
      var w := HandshakeRuns.Run(s, Start(), front).value;
      DrawnKept(s, w, t, dx, dy);
      TurnKeepsHonest(s, w, t);
    }
  }

  lemma StartIsDrawn(s: Peers, dx: set<Block>, dy: set<Block>)
    ensures Drawn(s, Start(), dx, dy)
  {
  }

  /** When of the session values drawn in a run only equal pairs give equal keys, the
      associations that an established initiator and the responder hold at its end fit
      exactly when their session values are equal. */
  lemma FitIffSameSessions(s: Peers, turns: seq<Turn>, dx: set<Block>, dy: set<Block>)
    requires s.Lawful() && HandshakeRuns.Run(s, Start(), turns).Some? && NoCollisions(s, dx, dy)
    requires forall t :: t in turns ==> DrawsFrom(t, dx, dy)
    ensures var w := HandshakeRuns.Run(s, Start(), turns).value;
            w.ini.state == ESTABLISHED && w.saI.Some? ==>
              && w.saR.Some?
              && (Crosswise(w.saI.value, w.saR.value) <==>
                  w.ini.sessionX == w.res.sessionX && w.ini.sessionY == w.res.sessionY)
  {
    RunsAgree(s, turns);
    RunIsDrawn(s, turns, dx, dy);
    var w := HandshakeRuns.Run(s, Start(), turns).value;
    hide HandshakeRuns.Run, Crosswise, Peers.SaI, Peers.Lawful, NoCollisions, DrawsFrom, CarriesX, CarriesY, Prints;
    if w.ini.state == ESTABLISHED {
      OnlyEqual(s, dx, dy, w.ini.sessionX, w.ini.sessionY, w.res.sessionX, w.res.sessionY);
    }
  }

  lemma OnlyEqual(s: Peers, dx: set<Block>, dy: set<Block>, x: Block, y: Block, x': Block, y': Block)
    requires NoCollisions(s, dx, dy) && x in dx && x' in dx && y in dy && y' in dy
    ensures s.SaI(x, y).lEK == s.SaI(x', y').lEK && s.SaI(x, y).rEK == s.SaI(x', y').rEK ==> x == x' && y == y'
  {
    hide Peers.SaI;
    assert SameKeys(s.SaI(x, y), s.SaI(x', y')) ==> x == x' && y == y';
  }

  // ---------------------------------------------------------------- runs that disagree

  /** The run leaves the initiator established and both ends with associations, none was
      removed, and they do not fit. */
  predicate Disagrees(s: Peers, turns: seq<Turn>) {
    Forget !in turns
    && match HandshakeRuns.Run(s, Start(), turns)
       case None => false
       case Some(w) =>
         && w.ini.state == ESTABLISHED && w.saI.Some? && w.saR.Some?
         && !Crosswise(w.saI.value, w.saR.value)
  }

  lemma DisagreesIf(s: Peers, turns: seq<Turn>, a: Sa, b: Sa)
    requires Forget !in turns && HandshakeRuns.Run(s, Start(), turns).Some? && !Crosswise(a, b)
    requires var w := HandshakeRuns.Run(s, Start(), turns).value;
             w.ini.state == ESTABLISHED && w.saI == Some(a) && w.saR == Some(b)
    ensures Disagrees(s, turns)
  {
    hide HandshakeRuns.Run;
  }

  /** Both bounds of `OneExchangeAgrees` are needed. For any peers whose search succeeds, and
      session values that give the initiator different keys, two starts are enough to end in
      disagreement, with one I2 given to the responder; */
  lemma RestartDisagrees(s: Peers, drawn: seq<Block>, x: Block, y: Block, x': Block) returns (turns: seq<Turn>)
    requires s.Lawful() && Found(s, drawn).Some? && s.SaI(x', y).lEK != s.SaI(x, y).lEK
    ensures Disagrees(s, turns) && Begins(turns) == 2 && I2Deliveries(turns) == 1
  {
    hide *;
    var undisturbed, late, twice := SomeTurns(s, drawn, x, y, x', y);
    StartIsHonest(s);
    OvertakenDisagrees(s, Start(), late, drawn, x, y, x');
    OvertakenCounts(s, late, drawn, x, y, x');
    turns := late;
    DisagreesIf(s, turns, s.SaI(x', y), s.SaR(x, y));
  }

  /** and so is one I2 given to the responder twice, with one start. */
  lemma RepeatDisagrees(s: Peers, drawn: seq<Block>, x: Block, y: Block, y': Block) returns (turns: seq<Turn>)
    requires s.Lawful() && Found(s, drawn).Some? && s.SaI(x, y).lEK != s.SaI(x, y').lEK
    ensures Disagrees(s, turns) && Begins(turns) == 1 && I2Deliveries(turns) == 2
  {
    hide *;
    var undisturbed, late, twice := SomeTurns(s, drawn, x, y, x, y');
    StartIsHonest(s);
    RepeatedDisagrees(s, Start(), twice, drawn, x, y, y');
    RepeatedCounts(s, twice, drawn, x, y, y');
    turns := twice;
    DisagreesIf(s, turns, s.SaI(x, y), s.SaR(x, y'));
  }

  lemma CountStep(turns: seq<Turn>, n: nat)
    requires n < |turns|
    ensures Begins(turns[..n + 1]) == Begins(turns[..n]) + (if turns[n].Begin? then 1 else 0)
    ensures I2Deliveries(turns[..n + 1]) == I2Deliveries(turns[..n]) + (if TakesI2(turns[n]) then 1 else 0)
    ensures Forget in turns[..n + 1] <==> Forget in turns[..n] || turns[n] == Forget
  {
    hide TakesI2;
    var longer := turns[..n + 1];
    assert longer[..n] == turns[..n] && longer == turns[..n] + [turns[n]];
  }

  lemma NoneCounted(turns: seq<Turn>)
    ensures Begins(turns[..0]) == 0 && I2Deliveries(turns[..0]) == 0 && Forget !in turns[..0]
    ensures turns[..|turns|] == turns
  {
  }

  lemma OpeningCounts(s: Peers, turns: seq<Turn>, drawn: seq<Block>, x: Block, y: Block)
    requires Opening(s, turns, drawn, x, y)
    ensures Begins(turns[..4]) == 1 && I2Deliveries(turns[..4]) == 1 && Forget !in turns[..4]
  {
    hide Prints, Found, IsI2, Peers.MsgI1, Peers.MsgR1, TakesI2;
    assert turns[1] == AtResponder(turns[1].m, turns[1].given) && turns[3] == AtResponder(turns[3].m, turns[3].given);
    I1IsNoI2(s, turns[1].m, turns[1].given);
    I2Taken(s, turns[3].m, turns[3].given, Found(s, drawn).value, x);
    OpeningTail(turns);
  }

  lemma OpeningTail(turns: seq<Turn>)
    requires |turns| >= 4 && turns[0].Begin? && turns[1].AtResponder? && turns[2].AtInitiator? && turns[3].AtResponder?
    requires !TakesI2(turns[1]) && TakesI2(turns[3])
    ensures Begins(turns[..4]) == 1 && I2Deliveries(turns[..4]) == 1 && Forget !in turns[..4]
  {
    hide *;
    NoneCounted(turns);
    NotI2(turns[0]);
    NotI2(turns[2]);
    CountStep(turns, 0);
    CountStep(turns, 1);
    CountStep(turns, 2);
    CountStep(turns, 3);
  }

  lemma NotI2(t: Turn)
    requires !t.AtResponder?
    ensures !TakesI2(t)
  {
  }

  lemma OvertakenCounts(s: Peers, turns: seq<Turn>, drawn: seq<Block>, x: Block, y: Block, x': Block)
    requires Overtaken(s, turns, drawn, x, y, x')
    ensures Forget !in turns && Begins(turns) == 2 && I2Deliveries(turns) == 1
  {
    hide Overtaken, Opening, Prints;
    OvertakenParts(s, turns, drawn, x, y, x');
    OpeningCounts(s, turns, drawn, x, y);
    OvertakenTail(turns);
  }

  lemma OvertakenTail(turns: seq<Turn>)
    requires |turns| == 7 && turns[4].Begin? && turns[5].AtInitiator? && turns[6].AtInitiator?
    requires Begins(turns[..4]) == 1 && I2Deliveries(turns[..4]) == 1 && Forget !in turns[..4]
    ensures Forget !in turns && Begins(turns) == 2 && I2Deliveries(turns) == 1
  {
    hide *;
    NoneCounted(turns);
    NotI2(turns[4]);
    NotI2(turns[5]);
    NotI2(turns[6]);
    CountStep(turns, 4);
    CountStep(turns, 5);
    CountStep(turns, 6);
  }

  lemma RepeatedCounts(s: Peers, turns: seq<Turn>, drawn: seq<Block>, x: Block, y: Block, y': Block)
    requires Repeated(s, turns, drawn, x, y, y')
    ensures Forget !in turns && Begins(turns) == 1 && I2Deliveries(turns) == 2
  {
    hide Repeated, Opening, Prints, IsI2, Found, TakesI2;
    RepeatedParts(s, turns, drawn, x, y, y');
    OpeningCounts(s, turns, drawn, x, y);
    I2Taken(s, turns[3].m, turns[4].given, Found(s, drawn).value, x);
    RepeatedTail(turns);
  }

  lemma RepeatedTail(turns: seq<Turn>)
    requires |turns| == 6 && turns[4].AtResponder? && TakesI2(turns[4]) && turns[5].AtInitiator?
    requires Begins(turns[..4]) == 1 && I2Deliveries(turns[..4]) == 1 && Forget !in turns[..4]
    ensures Forget !in turns && Begins(turns) == 1 && I2Deliveries(turns) == 2
  {
    hide *;
    NoneCounted(turns);
    NotI2(turns[5]);
    CountStep(turns, 4);
    CountStep(turns, 5);
  }

  // ---------------------------------------------------------------- such peers exist

  /** A block that starts with `n`. */
  function Led(n: Byte): (b: Block)
    ensures b[0] == n
  {
    [n] + Zeros(15)
  }

  function ToyPeers(): Peers { Peers(Toy(), [], [], Led(1), Led(2), 1, 2) }

  lemma ToyPeersAreLawful()
    ensures ToyPeers().Lawful()
  {
    ToyIsLawful();
    assert Led(1)[0] != Led(2)[0];
  }

  /** Any candidate solves a toy puzzle. */
  lemma ToyFinds(j: Block)
    ensures Found(ToyPeers(), [j]).Some?
  {
    var s := ToyPeers();
    var v := ToyMac(s.RandomI(), s.hitI + s.hitR + j);
    assert PZ.Truncated(v, 8) == [0];
    assert PZ.Solves(s.c, s.RandomI(), s.hitI, s.hitR, j, 8);
    hide ToyMac, PZ.CalculateI, PZ.Solves;
    ToySearch(s.c, s.RandomI(), s.hitI, s.hitR, j);
  }

  lemma ToySearch(c: Suite, randomI: Str, hitI: Str, hitR: Str, j: Block)
    requires PZ.Solves(c, randomI, hitI, hitR, j, 8)
    ensures PZ.FirstSolution(c, randomI, hitI, hitR, 8, [j]).Some?
  {
    hide PZ.Solves;
  }

  lemma {:induction false} KeymatStarts(c: Suite, prk: Str, hits: Str, n: nat)
    requires n > 0
    ensures KD.Keymat(c, prk, hits, n)[..BLOCK] == KD.Round(c, prk, hits, 0)
  {
    hide KD.Round;
    if n == 1 {
      assert KD.Keymat(c, prk, hits, 0) == [];
      assert KD.Keymat(c, prk, hits, 1) == KD.Round(c, prk, hits, 0);
    } else {
      KeymatStarts(c, prk, hits, n - 1);
      assert KD.Keymat(c, prk, hits, n) == KD.Keymat(c, prk, hits, n - 1) + KD.Round(c, prk, hits, n - 1);
    }
  }

  /** The initiator's sending key of the toy depends on how both session values start. */
  lemma ToyKey(x: Block, y: Block)
    ensures ToyPeers().SaI(x, y).lEK[1] == (ToyPeers().RandomI()[1] as int + x[0] as int + y[0] as int + 3) % 256
  {
    var i := ToyPeers().RandomI();
    hide Peers.RandomI, KD.Derive;
    ToyDerived(i, x + y);
    assert (x + y)[0] == x[0] && (x + y)[16] == y[0];
  }

  lemma ToyDerived(i: Block, secret: Str)
    requires |secret| == 32
    ensures KD.Derive(Toy(), Led(2), Led(1), i, secret).iek[1] ==
            (i[1] as int + secret[0] as int + secret[16] as int + 3) % 256
  {
    hide *;
    var c, hits := Toy(), Led(1) + Led(2);
    ToyOrder();
    ToyExtract(i, secret, hits);
    var prk := c.cmac(i, secret + hits + KD.EXTRACT);
    ToyRound(prk, hits);
    KeymatStarts(c, prk, hits, 4);
    DeriveStarts(c, Led(2), Led(1), i, secret, prk, hits);
  }

  lemma DeriveStarts(c: Suite, a: Str, b: Str, randomI: Str, secret: Str, prk: Str, hits: Str)
    requires Less(b, a) && KD.Ordered(a, b) == hits && prk == c.cmac(randomI, secret + hits + KD.EXTRACT)
    ensures KD.Derive(c, a, b, randomI, secret).iek == KD.Keymat(c, prk, hits, 4)[..BLOCK]
  {
    hide KD.Keymat, KD.Ordered, Less;
  }

  lemma ToyExtract(i: Block, secret: Str, hits: Str)
    requires |secret| == 32
    ensures Toy().cmac(i, secret + hits + KD.EXTRACT)[1] ==
            (i[1] as int + secret[0] as int + secret[16] as int) % 256
  {
  }

  lemma ToyRound(prk: Block, hits: Str)
    requires |hits| == 32 && hits[0] == 1 && hits[16] == 2
    ensures KD.Round(Toy(), prk, hits, 0)[1] == (prk[1] as int + 3) % 256
  {
  }

  lemma ToyOrder()
    ensures Less(Led(1), Led(2)) && KD.Ordered(Led(2), Led(1)) == Led(1) + Led(2)
    ensures |Led(1) + Led(2)| == 32 && (Led(1) + Led(2))[0] == 1 && (Led(1) + Led(2))[16] == 2
  {
    assert (Led(1) + Led(2))[16] == Led(2)[0];
  }

  lemma ToyKeysDiffer()
    ensures var s := ToyPeers();
            && s.SaI(Led(1), Led(0)).lEK != s.SaI(Led(0), Led(0)).lEK
            && s.SaI(Led(0), Led(0)).lEK != s.SaI(Led(0), Led(1)).lEK
  {
    hide ToyPeers, Peers.SaI, Peers.RandomI;
    ToyKey(Led(0), Led(0));
    ToyKey(Led(1), Led(0));
    ToyKey(Led(0), Led(1));
  }

  /** Two values drawn at each end of the toy need not collide. */
  lemma ToyNoCollisions()
    ensures NoCollisions(ToyPeers(), {Led(0), Led(1)}, {Led(0), Led(2)})
  {
    var s, dx, dy := ToyPeers(), {Led(0), Led(1)}, {Led(0), Led(2)};
    hide ToyPeers, Peers.SaI, Peers.RandomI, SameKeys, Led;
    forall x: Block, y: Block, x': Block, y': Block |
      x in dx && x' in dx && y in dy && y' in dy && SameKeys(s.SaI(x, y), s.SaI(x', y'))
      ensures x == x' && y == y'
    {
      ToyApart(x, y, x', y');
    }
  }

  lemma ToyApart(x: Block, y: Block, x': Block, y': Block)
    requires x == Led(0) || x == Led(1)
    requires x' == Led(0) || x' == Led(1)
    requires y == Led(0) || y == Led(2)
    requires y' == Led(0) || y' == Led(2)
    requires SameKeys(ToyPeers().SaI(x, y), ToyPeers().SaI(x', y'))
    ensures x == x' && y == y'
  {
    hide ToyPeers, Peers.SaI, Peers.RandomI, Led;
    ToyKey(x, y);
    ToyKey(x', y');
    SumsApart(ToyPeers().RandomI()[1], x[0], y[0], x'[0], y'[0]);
  }

  lemma SumsApart(r: Byte, a: Byte, b: Byte, a': Byte, b': Byte)
    requires a <= 1 && a' <= 1 && (b == 0 || b == 2) && (b' == 0 || b' == 2)
    requires (r as int + a as int + b as int + 3) % 256 == (r as int + a' as int + b' as int + 3) % 256
    ensures a == a' && b == b'
  {
  }

  /** So agreement does not hold of every run, and neither bound can be dropped. */
  lemma AgreementFails() returns (s: Peers, restarted: seq<Turn>, repeated: seq<Turn>)
    ensures s.Lawful()
    ensures Disagrees(s, restarted) && Begins(restarted) == 2 && I2Deliveries(restarted) == 1
    ensures Disagrees(s, repeated) && Begins(repeated) == 1 && I2Deliveries(repeated) == 2
  {
    hide *;
    s := ToyPeers();
    ToyPeersAreLawful();
    ToyFinds(Led(0));
    ToyKeysDiffer();
    restarted := RestartDisagrees(s, [Led(0)], Led(0), Led(0), Led(1));
    repeated := RepeatDisagrees(s, [Led(0)], Led(0), Led(0), Led(1));
  }
}
