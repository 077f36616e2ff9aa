/** The state gate of `CConnection::Handle`: which packets a state admits, where each
    handler moves, and what a history must look like to end in each state. */
module ConnectionStates {
  import opened Bytes

  type State = bv8

  const UNASSOCIATED: State := 0x01
  const ESTABLISHED: State := 0x02
  const I1_SENT: State := 0x04
  const I2_SENT: State := 0x08
  const R2_SENT: State := 0x10
  const CLOSING: State := 0x20
  const CLOSED: State := 0x40

  const I1: Byte := 1
  const R1: Byte := 2
  const I2: Byte := 3
  const R2: Byte := 4

  /** `AllowedStates()` of the handler for a packet kind; no handler, no states. */
  function AllowedStates(kind: Byte): State {
    if kind == I1 then UNASSOCIATED | R2_SENT
    else if kind == R1 then I1_SENT
    else if kind == I2 then UNASSOCIATED | ESTABLISHED | I1_SENT | I2_SENT | R2_SENT | CLOSING | CLOSED
    else if kind == R2 then I2_SENT
    else 0
  }

  function NextState(kind: Byte): State {
    if kind == I1 then UNASSOCIATED
    else if kind == R1 then I2_SENT
    else if kind == I2 then R2_SENT
    else if kind == R2 then ESTABLISHED
    else 0
  }

  /** Does the gate let a packet of this kind through? */
  predicate Admits(s: State, kind: Byte) { AllowedStates(kind) & s != 0 }

  datatype Event = Initiate | Arrives(kind: Byte)

  /** `Handle` moves to the handler's next state whatever the handler did with the packet;
      `Initiate` overwrites the state. */
  function After(s: State, e: Event): State {
    match e
    case Initiate => I1_SENT
    case Arrives(k) => if Admits(s, k) then NextState(k) else s
  }

  function Final(trace: seq<Event>): State {
    if trace == [] then UNASSOCIATED else After(Final(trace[..|trace| - 1]), trace[|trace| - 1])
  }

  /** No event of `stops` from index `from` on. */
  predicate Quiet(trace: seq<Event>, from: nat, stops: set<Event>) {
    forall n :: from <= n < |trace| ==> trace[n] !in stops
  }

  /** The trace ends Initiate, ignored events. */
  predicate AskedAt(trace: seq<Event>, i: nat) {
    i < |trace| && trace[i] == Initiate && Quiet(trace, i + 1, {Initiate, Arrives(I2), Arrives(R1)})
  }

  /** The trace ends Initiate, ignored events, R1, ignored events. */
  predicate AnsweredAt(trace: seq<Event>, i: nat, j: nat) {
    i < j < |trace| && AskedAt(trace[..j], i) && trace[j] == Arrives(R1)
    && Quiet(trace, j + 1, {Initiate, Arrives(I2), Arrives(R2)})
  }

  /** The trace ends Initiate, ignored, R1, ignored, R2, ignored. */
  predicate CompletedAt(trace: seq<Event>, i: nat, j: nat, k: nat) {
    j < k < |trace| && AnsweredAt(trace[..k], i, j) && trace[k] == Arrives(R2)
    && Quiet(trace, k + 1, {Initiate, Arrives(I2)})
  }

  /** The trace has an I2 and ends with events that leave it answered. */
  predicate RespondedAt(trace: seq<Event>, k: nat) {
    k < |trace| && trace[k] == Arrives(I2) && Quiet(trace, k + 1, {Initiate, Arrives(I1)})
  }

  /** Nothing has begun, or the last thing begun was answered and an I1 came after it. */
  ghost predicate IdleFrom(trace: seq<Event>, n: nat) {
    n <= |trace| && Quiet(trace, n, {Initiate, Arrives(I2)})
    && (n > 0 ==> trace[n - 1] == Arrives(I1) && Responded(trace[..n - 1]))
  }

  ghost predicate Responded(trace: seq<Event>) { exists k: nat :: RespondedAt(trace, k) }
  ghost predicate Idle(trace: seq<Event>) { exists n: nat :: IdleFrom(trace, n) }
  ghost predicate Asked(trace: seq<Event>) { exists i: nat :: AskedAt(trace, i) }
  ghost predicate Answered(trace: seq<Event>) { exists i: nat, j: nat :: AnsweredAt(trace, i, j) }
  ghost predicate Completed(trace: seq<Event>) { exists i: nat, j: nat, k: nat :: CompletedAt(trace, i, j, k) }

  /** Only five of the seven states are ever reached. */
  lemma {:induction false} FinalReachable(trace: seq<Event>)
    ensures Final(trace) in {UNASSOCIATED, I1_SENT, I2_SENT, R2_SENT, ESTABLISHED}
  {
    if trace != [] { FinalReachable(trace[..|trace| - 1]); }
  }

  /** How one more event changes each of the three shapes. */
  lemma AskedStep(front: seq<Event>, e: Event)
    ensures Asked(front + [e]) <==> e == Initiate || (Asked(front) && e !in {Initiate, Arrives(I2), Arrives(R1)})
  {
    var t := front + [e];
    if e == Initiate { assert AskedAt(t, |front|); }
    if Asked(front) && e !in {Initiate, Arrives(I2), Arrives(R1)} {
      var i: nat :| AskedAt(front, i);
      assert AskedAt(t, i);
    }
    if Asked(t) && e != Initiate {
      var i: nat :| AskedAt(t, i);
      assert t[|front|] == e;
      assert forall n :: i + 1 <= n < |front| ==> front[n] == t[n];
      assert AskedAt(front, i);
    }
  }

  lemma AnsweredStep(front: seq<Event>, e: Event)
    ensures Answered(front + [e]) <==>
            (e == Arrives(R1) && Asked(front)) ||
            (Answered(front) && e !in {Initiate, Arrives(I2), Arrives(R2)})
  {
    var t := front + [e];
    assert t[..|front|] == front;
    if e == Arrives(R1) && Asked(front) {
      var i: nat :| AskedAt(front, i);
      assert AnsweredAt(t, i, |front|);
    }
    if Answered(front) && e !in {Initiate, Arrives(I2), Arrives(R2)} {
      var i: nat, j: nat :| AnsweredAt(front, i, j);
      assert t[..j] == front[..j];
      assert AnsweredAt(t, i, j);
    }
    if Answered(t) {
      var i: nat, j: nat :| AnsweredAt(t, i, j);
      if j < |front| {
        assert t[..j] == front[..j] && t[|front|] == e;
        assert forall n :: j + 1 <= n < |front| ==> front[n] == t[n];
        assert AnsweredAt(front, i, j);
      }
    }
  }

  lemma CompletedStep(front: seq<Event>, e: Event)
    ensures Completed(front + [e]) <==>
            (e == Arrives(R2) && Answered(front)) ||
            (Completed(front) && e !in {Initiate, Arrives(I2)})
  {
    var t := front + [e];
    assert t[..|front|] == front;
    if e == Arrives(R2) && Answered(front) {
      var i: nat, j: nat :| AnsweredAt(front, i, j);
      assert CompletedAt(t, i, j, |front|);
    }
    if Completed(front) && e !in {Initiate, Arrives(I2)} {
      var i: nat, j: nat, k: nat :| CompletedAt(front, i, j, k);
      assert t[..k] == front[..k];
      assert CompletedAt(t, i, j, k);
    }
    if Completed(t) {
      var i: nat, j: nat, k: nat :| CompletedAt(t, i, j, k);
      if k < |front| {
        assert t[..k] == front[..k] && t[|front|] == e;
        assert forall n :: k + 1 <= n < |front| ==> front[n] == t[n];
        assert CompletedAt(front, i, j, k);
      }
    }
  }

  lemma RespondedStep(front: seq<Event>, e: Event)
    ensures Responded(front + [e]) <==>
            e == Arrives(I2) || (Responded(front) && e !in {Initiate, Arrives(I1)})
  {
    var t := front + [e];
    if e == Arrives(I2) { assert RespondedAt(t, |front|); }
    if Responded(front) && e !in {Initiate, Arrives(I1)} {
      var k: nat :| RespondedAt(front, k);
      assert RespondedAt(t, k);
    }
    if Responded(t) && e != Arrives(I2) {
      var k: nat :| RespondedAt(t, k);
      assert t[|front|] == e;
      assert forall n :: k + 1 <= n < |front| ==> front[n] == t[n];
      assert RespondedAt(front, k);
    }
  }

  lemma IdleStep(front: seq<Event>, e: Event)
    ensures Idle(front + [e]) <==>
            (e == Arrives(I1) && Responded(front)) || (Idle(front) && e !in {Initiate, Arrives(I2)})
  {
    var t := front + [e];
    assert t[..|front|] == front;
    hide Responded;
    if e == Arrives(I1) && Responded(front) { assert IdleFrom(t, |t|); }
    if Idle(front) && e !in {Initiate, Arrives(I2)} {
      var n: nat :| IdleFrom(front, n);
      assert n > 0 ==> t[..n - 1] == front[..n - 1];
      assert IdleFrom(t, n);
    }
    if Idle(t) {
      var n: nat :| IdleFrom(t, n);
      if n <= |front| {
        assert t[|front|] == e && (n > 0 ==> t[..n - 1] == front[..n - 1]);
        assert forall i :: n <= i < |front| ==> front[i] == t[i];
        assert IdleFrom(front, n);
      }
    }
  }

  /** In each of the five reachable states a connection is exactly when its history has the
      shape that belongs to the state. */
  lemma {:induction false} HistoryOfState(trace: seq<Event>)
    ensures Final(trace) == UNASSOCIATED <==> Idle(trace)
    ensures Final(trace) == R2_SENT <==> Responded(trace)
    ensures Final(trace) == I1_SENT <==> Asked(trace)
    ensures Final(trace) == I2_SENT <==> Answered(trace)
    ensures Final(trace) == ESTABLISHED <==> Completed(trace)
  {
    if trace == [] {
      assert IdleFrom(trace, 0);
    } else {
      var front, e := trace[..|trace| - 1], trace[|trace| - 1];
      assert trace == front + [e];
      IdleStep(front, e);
      RespondedStep(front, e);
      HistoryOfState(front);
      FinalReachable(front);
      AskedStep(front, e);
      AnsweredStep(front, e);
      CompletedStep(front, e);
      hide Asked, Answered, Completed, Idle, Responded;
    }
  }

  /** An established connection keeps its state until it initiates anew or is sent an I2. */
  lemma EstablishedIsStable(s: State, e: Event)
    requires s == ESTABLISHED
    ensures After(s, e) == ESTABLISHED <==> e !in {Initiate, Arrives(I2)}
  {
  }
}
