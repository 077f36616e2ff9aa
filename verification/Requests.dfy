/** Client threads against confirmation callbacks: every step that one of them takes while it
    holds a lock, or without sharing anything, is one step here; steps interleave freely. */
module Requests {
  import opened Bytes
  import opened RequestKey

  /** Where the thread that handles a request is. */
  datatype Phase =
    | Made         // it has its waiter
    | Added        // the waiter is in the table
    | Sent         // the request went to the SIB; about to take the waiter's lock
    | Asleep       // in g_cond_wait
    | Woken        // signalled or woken for no reason; about to retake the lock
    | Finished     // past the wait
    | Answering    // the answer is built from the waiter's response
    | Answered     // and sent
    | Dropped      // no answer could be built: the entry stays behind
    | Done         // the entry is removed
    | Refused      // the key was taken

  datatype Request = Request(fd: int, pair: Pair, phase: Phase)
  datatype Waiter = Waiter(fd: int, ready: bool, rsp: Option<Pair>, locked: bool, alive: bool)
  datatype CallPhase = Looking | Holding(w: nat) | Locked(w: nat) | Over
  datatype Callback = Callback(pair: Pair, phase: CallPhase)
  datatype Reply = Reply(r: nat, fd: int, pair: Pair)

  /** `waiters[r]` belongs to `reqs[r]`; `due` holds the confirmations still to come. */
  datatype State = State(reqs: seq<Request>, waiters: seq<Waiter>, table: map<Str, nat>,
                         due: multiset<Pair>, calls: seq<Callback>, answers: seq<Reply>)

  const Initial := State([], [], map[], multiset{}, [], [])

  datatype Step =
    | Arrive(fd: int, pair: Pair)
    | Register(r: nat)
    | SendOut(r: nat)
    | EnterWait(r: nat)
    | Wake(r: nat)
    | Recheck(r: nat)
    | Build(r: nat, ok: bool)
    | Answer(r: nat)
    | Remove(r: nat)
    | Confirm(pair: Pair)
    | LookUp(cb: nat)
    | Seize(cb: nat)
    | Complete(cb: nat)

  predicate At(s: State, r: nat, p: Phase) { r < |s.reqs| == |s.waiters| && s.reqs[r].phase == p }

  predicate Enabled(s: State, t: Step) {
    match t
    case Arrive(_, _) => true
    case Register(r) => At(s, r, Made)
    case SendOut(r) => At(s, r, Added)
    case EnterWait(r) => At(s, r, Sent) && !s.waiters[r].locked
    case Wake(r) => At(s, r, Asleep)
    case Recheck(r) => At(s, r, Woken) && !s.waiters[r].locked
    case Build(r, ok) => At(s, r, Finished)
    case Answer(r) => At(s, r, Answering) && s.waiters[r].rsp.Some?
    case Remove(r) => At(s, r, Answered) && Removable(s, KeyOf(s.reqs[r].pair))
    case Confirm(p) => p in s.due
    case LookUp(cb) => cb < |s.calls| && s.calls[cb].phase.Looking?
    case Seize(cb) =>
      cb < |s.calls| && s.calls[cb].phase.Holding? && s.calls[cb].phase.w < |s.reqs| == |s.waiters|
      && !s.waiters[s.calls[cb].phase.w].locked
    case Complete(cb) =>
      cb < |s.calls| && s.calls[cb].phase.Locked? && s.calls[cb].phase.w < |s.reqs| == |s.waiters|
  }

  /** Removing destroys the waiter, which takes its lock first. */
  predicate Removable(s: State, key: Str) {
    key in s.table ==> s.table[key] < |s.waiters| && !s.waiters[s.table[key]].locked
  }

  function Moved(s: State, r: nat, p: Phase): State
    requires r < |s.reqs|
  {
    s.(reqs := s.reqs[r := s.reqs[r].(phase := p)])
  }

  function Called(s: State, cb: nat, p: CallPhase): State
    requires cb < |s.calls|
  {
    s.(calls := s.calls[cb := s.calls[cb].(phase := p)])
  }

  function SetWaiter(s: State, r: nat, w: Waiter): State
    requires r < |s.waiters|
  {
    s.(waiters := s.waiters[r := w])
  }

  function Destroyed(s: State, r: nat): State
    requires r < |s.waiters|
  {
    SetWaiter(s, r, s.waiters[r].(alive := false))
  }

  function Next(s: State, t: Step): State
    requires Enabled(s, t)
  {
    match t
    case Arrive(fd, pair) =>
      s.(reqs := s.reqs + [Request(fd, pair, Made)], waiters := s.waiters + [Waiter(fd, false, None, false, true)])
    case Register(r) =>
      var key := KeyOf(s.reqs[r].pair);
      if key in s.table then Moved(Destroyed(s, r), r, Refused)
      else Moved(s, r, Added).(table := s.table[key := r])
    case SendOut(r) => Moved(s, r, Sent).(due := s.due + multiset{s.reqs[r].pair})
    case EnterWait(r) => Checked(s, r)
    case Wake(r) => Moved(s, r, Woken)
    case Recheck(r) => Checked(s, r)
    case Build(r, ok) => Moved(s, r, if ok && s.waiters[r].rsp.Some? then Answering else Dropped)
    case Answer(r) =>
      Moved(s, r, Answered).(answers := s.answers + [Reply(r, s.waiters[r].fd, s.waiters[r].rsp.value)])
    case Remove(r) =>
      var key := KeyOf(s.reqs[r].pair);
      if key in s.table then Destroyed(Moved(s, r, Done), s.table[key]).(table := s.table - {key})
      else Moved(s, r, Done)
    case Confirm(p) => s.(due := s.due - multiset{p}, calls := s.calls + [Callback(p, Looking)])
    case LookUp(cb) =>
      var key := KeyOf(s.calls[cb].pair);
      Called(s, cb, if key in s.table then Holding(s.table[key]) else Over)
    case Seize(cb) =>
      var w := s.calls[cb].phase.w;
      SetWaiter(Called(s, cb, Locked(w)), w, s.waiters[w].(locked := true))
    case Complete(cb) =>
      var w := s.calls[cb].phase.w;
      var done := SetWaiter(Called(s, cb, Over), w,
                           s.waiters[w].(rsp := Some(s.calls[cb].pair), ready := true, locked := false));
      if s.reqs[w].phase == Asleep then Moved(done, w, Woken) else done
  }

  /** The loop head of the wait, with the lock held: past it when ready, back to sleep when not. */
  function Checked(s: State, r: nat): State
    requires r < |s.reqs| == |s.waiters|
  {
    if s.waiters[r].ready then SetWaiter(Moved(s, r, Finished), r, s.waiters[r].(ready := false))
    else Moved(s, r, Asleep)
  }

  // ---------------------------------------------------------------- invariant

  predicate Waiting(p: Phase) { p == Sent || p == Asleep || p == Woken }

  /** Registered and not yet removed; a dropped request stays registered. */
  predicate HoldsEntry(p: Phase) { p != Made && p != Done && p != Refused }

  /** The entries of the table correspond one to one to the requests that registered and have
      not been removed. */
  ghost predicate TableFits(s: State) {
    && |s.reqs| == |s.waiters|
    && (forall k :: k in s.table ==>
          s.table[k] < |s.reqs| && KeyOf(s.reqs[s.table[k]].pair) == k && HoldsEntry(s.reqs[s.table[k]].phase))
    && (forall r :: 0 <= r < |s.reqs| && HoldsEntry(s.reqs[r].phase) ==>
          KeyOf(s.reqs[r].pair) in s.table && s.table[KeyOf(s.reqs[r].pair)] == r)
  }

  /** A waiter's fields agree with where its thread is. */
  predicate WaiterFits(q: Request, w: Waiter) {
    && w.fd == q.fd
    && (w.alive <==> q.phase != Refused && q.phase != Done)
    && (w.ready ==> (q.phase == Sent || q.phase == Woken) && w.rsp == Some(q.pair))
    && (q.phase == Finished || q.phase == Answering ==> w.rsp == Some(q.pair))
    && (w.locked ==> Waiting(q.phase) && !w.ready)
  }

  ghost predicate WaitersFit(s: State)
    requires |s.reqs| == |s.waiters|
  {
    forall r :: 0 <= r < |s.reqs| ==> WaiterFits(s.reqs[r], s.waiters[r])
  }

  /** Request `r` waits and has not been confirmed. */
  predicate Open(s: State, r: nat) {
    r < |s.reqs| == |s.waiters| && Waiting(s.reqs[r].phase) && !s.waiters[r].ready
  }

  /** A callback under way belongs to an open request with its own pair, and holds that
      request's waiter or none. */
  ghost predicate CallsFit(s: State) {
    forall cb :: 0 <= cb < |s.calls| && s.calls[cb].phase != Over ==>
      && KeyOf(s.calls[cb].pair) in s.table
      && var r := s.table[KeyOf(s.calls[cb].pair)];
         Open(s, r) && s.reqs[r].pair == s.calls[cb].pair
         && match s.calls[cb].phase
            case Holding(w) => w == r
            case Locked(w) => w == r && s.waiters[r].locked
            case _ => true
  }

  /** For each pair there is at most one confirmation to come or callback under way. */
  ghost predicate OneEach(s: State) {
    && (forall p :: p in s.due ==>
          && s.due[p] == 1 && KeyOf(p) in s.table
          && Open(s, s.table[KeyOf(p)]) && s.reqs[s.table[KeyOf(p)]].pair == p)
    && (forall a, b :: 0 <= a < b < |s.calls| && s.calls[a].phase != Over && s.calls[b].phase != Over ==>
          s.calls[a].pair != s.calls[b].pair)
    && (forall a :: 0 <= a < |s.calls| && s.calls[a].phase != Over ==> s.calls[a].pair !in s.due)
  }

  ghost predicate CalledFor(s: State, p: Pair) {
    exists cb :: 0 <= cb < |s.calls| && s.calls[cb].phase != Over && s.calls[cb].pair == p
  }

  ghost predicate LockedBy(s: State, r: nat) { exists cb :: 0 <= cb < |s.calls| && s.calls[cb].phase == Locked(r) }

  /** Every open request has its confirmation to come or a callback under way; every lock
      that is taken is held by a callback. */
  ghost predicate Served(s: State) {
    && (forall r :: 0 <= r < |s.reqs| && Open(s, r) ==> s.reqs[r].pair in s.due || CalledFor(s, s.reqs[r].pair))
    && (forall r :: 0 <= r < |s.waiters| && s.waiters[r].locked ==> LockedBy(s, r))
  }

  predicate WasAnswered(p: Phase) { p == Answered || p == Done }

  /** Answers go out once, on the request's own descriptor, with its own pair. */
  ghost predicate AnswersFit(s: State) {
    && (forall i :: 0 <= i < |s.answers| ==>
          && s.answers[i].r < |s.reqs|
          && WasAnswered(s.reqs[s.answers[i].r].phase)
          && s.answers[i].fd == s.reqs[s.answers[i].r].fd && s.answers[i].pair == s.reqs[s.answers[i].r].pair)
    && (forall i, j :: 0 <= i < j < |s.answers| ==> s.answers[i].r != s.answers[j].r)
    && (forall r :: 0 <= r < |s.reqs| && WasAnswered(s.reqs[r].phase) ==> HasAnswer(s, r))
  }

  ghost predicate HasAnswer(s: State, r: nat) { exists i :: 0 <= i < |s.answers| && s.answers[i].r == r }

  ghost predicate Inv(s: State) {
    TableFits(s) && WaitersFit(s) && CallsFit(s) && OneEach(s) && Served(s) && AnswersFit(s)
  }

  // ---------------------------------------------------------------- steps keep it

  /** The request, and the waiter, that a step changes. */
  function Subject(s: State, t: Step): nat
    requires Enabled(s, t) && !t.Arrive? && !t.Confirm?
  {
    if t.LookUp? then 0
    else if t.Seize? || t.Complete? then s.calls[t.cb].phase.w
    else t.r
  }

  /** Only request `r` moved; only its waiter changed. */
  predicate OnlyAt(s: State, n: State, r: nat) {
    && r < |s.reqs| == |s.waiters| == |n.reqs| == |n.waiters|
    && n.reqs == s.reqs[r := n.reqs[r]] && n.reqs[r] == s.reqs[r].(phase := n.reqs[r].phase)
    && n.waiters == s.waiters[r := n.waiters[r]]
  }

  lemma CallIsLocal(s: State, t: Step)
    requires |s.reqs| == |s.waiters| && Enabled(s, t) && (t.Seize? || t.Complete?)
    ensures OnlyAt(s, Next(s, t), Subject(s, t)) && Next(s, t).table == s.table
    ensures HoldsEntry(Next(s, t).reqs[Subject(s, t)].phase) <==> HoldsEntry(s.reqs[Subject(s, t)].phase)
  {
  }

  lemma WaitIsLocal(s: State, t: Step)
    requires |s.reqs| == |s.waiters| && Enabled(s, t) && InWait(t)
    ensures OnlyAt(s, Next(s, t), t.r) && Next(s, t).table == s.table
    ensures HoldsEntry(Next(s, t).reqs[t.r].phase) <==> HoldsEntry(s.reqs[t.r].phase)
  {
  }

  predicate InWait(t: Step) { t.EnterWait? || t.Wake? || t.Recheck? }

  lemma OtherIsLocal(s: State, t: Step)
    requires TableFits(s) && Enabled(s, t)
    requires t.Register? || t.SendOut? || t.Build? || t.Answer? || t.Remove?
    ensures OnlyAt(s, Next(s, t), t.r)
    ensures t.SendOut? || t.Build? || t.Answer? ==>
              && Next(s, t).table == s.table
              && (HoldsEntry(Next(s, t).reqs[t.r].phase) <==> HoldsEntry(s.reqs[t.r].phase))
  {
    if t.Remove? { assert s.table[KeyOf(s.reqs[t.r].pair)] == t.r; }
    hide TableFits, KeyOf;
  }

  lemma StepIsLocal(s: State, t: Step)
    requires TableFits(s) && Enabled(s, t) && !t.Arrive? && !t.Confirm? && !t.LookUp?
    ensures OnlyAt(s, Next(s, t), Subject(s, t))
    ensures !t.Register? && !t.Remove? ==>
              && Next(s, t).table == s.table
              && (HoldsEntry(Next(s, t).reqs[Subject(s, t)].phase) <==> HoldsEntry(s.reqs[Subject(s, t)].phase))
  {
    assert |s.reqs| == |s.waiters|;
    hide TableFits, KeyOf, Next, Enabled, OnlyAt;
    if t.Seize? || t.Complete? {
      CallIsLocal(s, t);
    } else if InWait(t) {
      WaitIsLocal(s, t);
    } else {
      OtherIsLocal(s, t);
    }
  }

  lemma TableMoved(s: State, n: State, r: nat)
    requires TableFits(s) && OnlyAt(s, n, r) && n.table == s.table
    requires HoldsEntry(n.reqs[r].phase) <==> HoldsEntry(s.reqs[r].phase)
    ensures TableFits(n)
  {
    hide KeyOf;
  }

  lemma TableAdded(s: State, n: State, r: nat, key: Str)
    requires TableFits(s) && OnlyAt(s, n, r) && key == KeyOf(s.reqs[r].pair)
    requires key !in s.table && n.table == s.table[key := r]
    requires HoldsEntry(n.reqs[r].phase)
    ensures TableFits(n)
  {
    hide KeyOf;
  }

  lemma TableRemoved(s: State, n: State, r: nat, key: Str)
    requires TableFits(s) && OnlyAt(s, n, r) && key == KeyOf(s.reqs[r].pair)
    requires key in s.table && s.table[key] == r && n.table == s.table - {key}
    requires !HoldsEntry(n.reqs[r].phase)
    ensures TableFits(n)
  {
    hide KeyOf;
  }

  lemma TableKept(s: State, t: Step)
    requires TableFits(s) && Enabled(s, t)
    ensures TableFits(Next(s, t))
  {
    if t.Arrive? || t.Confirm? || t.LookUp? {
      hide KeyOf;
    } else if t.Register? || t.Remove? {
      TableKeptByKey(s, t);
      hide *;
    } else {
      StepIsLocal(s, t);
      hide TableFits, KeyOf, OnlyAt, Next, Enabled, Subject;
      TableMoved(s, Next(s, t), Subject(s, t));
    }
  }

  lemma TableKeptByKey(s: State, t: Step)
    requires TableFits(s) && Enabled(s, t) && (t.Register? || t.Remove?)
    ensures TableFits(Next(s, t))
  {
    StepIsLocal(s, t);
    var n, key := Next(s, t), KeyOf(s.reqs[t.r].pair);
    if t.Remove? { assert s.table[key] == t.r; }
    hide TableFits, KeyOf, OnlyAt;
    if t.Remove? {
      TableRemoved(s, n, t.r, key);
    } else if key in s.table {
      TableMoved(s, n, t.r);
    } else {
      TableAdded(s, n, t.r, key);
    }
  }

  predicate ByThread(t: Step) {
    !t.SendOut? && !t.Confirm? && !t.LookUp? && !t.Seize? && !t.Complete?
  }

  /** The changed waiter fits its changed request: when its own thread steps, */
  lemma OwnWaiterFits(s: State, t: Step)
    requires TableFits(s) && WaitersFit(s) && Enabled(s, t) && (ByThread(t) || t.SendOut?) && !t.Arrive?
    ensures var n := Next(s, t);
            t.r < |n.reqs| == |n.waiters| && WaiterFits(n.reqs[t.r], n.waiters[t.r])
    ensures t.r < |s.reqs| == |s.waiters| && WaiterFits(s.reqs[t.r], s.waiters[t.r])
  {
    assert t.r < |s.reqs| == |s.waiters| && WaiterFits(s.reqs[t.r], s.waiters[t.r]);
    if InWait(t) {
      hide KeyOf, TableFits, WaitersFit, Next, Enabled;
      OwnFitsInWait(s, t);
    } else if t.Remove? || t.Register? {
      hide KeyOf, TableFits, WaitersFit, Next, Enabled;
      OwnFitsByKey(s, t);
    } else {
      hide KeyOf, TableFits, WaitersFit;
    }
  }

  lemma OwnFitsInWait(s: State, t: Step)
    requires |s.reqs| == |s.waiters| && Enabled(s, t) && InWait(t)
    requires WaiterFits(s.reqs[t.r], s.waiters[t.r])
    ensures var n := Next(s, t);
            t.r < |n.reqs| == |n.waiters| && WaiterFits(n.reqs[t.r], n.waiters[t.r])
  {
  }

  lemma OwnFitsByKey(s: State, t: Step)
    requires TableFits(s) && Enabled(s, t) && (t.Register? || t.Remove?)
    requires WaiterFits(s.reqs[t.r], s.waiters[t.r])
    ensures var n := Next(s, t);
            t.r < |n.reqs| == |n.waiters| && WaiterFits(n.reqs[t.r], n.waiters[t.r])
  {
    if t.Remove? { assert s.table[KeyOf(s.reqs[t.r].pair)] == t.r; }
    hide TableFits, KeyOf;
  }

  /** and when a callback does. */
  lemma HeldWaiterFits(s: State, t: Step)
    requires TableFits(s) && WaitersFit(s) && CallsFit(s) && Enabled(s, t) && (t.Seize? || t.Complete?)
    ensures var r, n := Subject(s, t), Next(s, t);
            r < |n.reqs| == |n.waiters| && WaiterFits(n.reqs[r], n.waiters[r])
  {
    assert s.calls[t.cb].phase != Over;
    assert WaiterFits(s.reqs[Subject(s, t)], s.waiters[Subject(s, t)]);
    hide WaitersFit, KeyOf;
  }

  lemma WaitersKept(s: State, t: Step)
    requires TableFits(s) && WaitersFit(s) && CallsFit(s) && Enabled(s, t)
    ensures var n := Next(s, t); |n.reqs| == |n.waiters| && WaitersFit(n)
  {
    if t.Arrive? || t.Confirm? || t.LookUp? {
      hide KeyOf;
    } else {
      StepIsLocal(s, t);
      hide KeyOf, TableFits, CallsFit, Enabled, Next;
      if t.Seize? || t.Complete? {
        HeldWaiterFits(s, t);
      } else {
        OwnWaiterFits(s, t);
      }
    }
  }

  /** Nothing that bears on answers changed. */
  lemma AnswersStay(s: State, n: State)
    requires AnswersFit(s) && n.answers == s.answers && |s.reqs| <= |n.reqs|
    requires forall r :: 0 <= r < |n.reqs| ==>
               if r < |s.reqs| then n.reqs[r].pair == s.reqs[r].pair && n.reqs[r].fd == s.reqs[r].fd
                                    && (WasAnswered(n.reqs[r].phase) <==> WasAnswered(s.reqs[r].phase))
               else !WasAnswered(n.reqs[r].phase)
    ensures AnswersFit(n)
  {
    forall r | 0 <= r < |n.reqs| && WasAnswered(n.reqs[r].phase) ensures HasAnswer(n, r) {
      assert HasAnswer(s, r);
    }
  }

  lemma AnswersAdded(s: State, n: State, r: nat, a: Reply)
    requires AnswersFit(s) && OnlyAt(s, n, r) && n.answers == s.answers + [a]
    requires a == Reply(r, s.reqs[r].fd, s.reqs[r].pair)
    requires !WasAnswered(s.reqs[r].phase) && n.reqs[r].phase == Answered
    ensures AnswersFit(n)
  {
    forall q | 0 <= q < |n.reqs| && WasAnswered(n.reqs[q].phase) ensures HasAnswer(n, q) {
      if q == r {
        assert n.answers[|s.answers|].r == r;
      } else {
        assert HasAnswer(s, q);
        var i :| 0 <= i < |s.answers| && s.answers[i].r == q;
        assert n.answers[i].r == q;
      }
    }
  }

  /** A step at `r` that sends nothing leaves it answered or not, as it was. */
  lemma AnswersStayAt(s: State, n: State, r: nat)
    requires AnswersFit(s) && OnlyAt(s, n, r) && n.answers == s.answers
    requires WasAnswered(n.reqs[r].phase) <==> WasAnswered(s.reqs[r].phase)
    ensures AnswersFit(n)
  {
    hide AnswersFit;
    AnswersStay(s, n);
  }

  lemma SendsNothing(s: State, t: Step)
    requires |s.reqs| == |s.waiters| && Enabled(s, t) && !t.Arrive? && !t.Confirm? && !t.LookUp? && !t.Answer?
    requires OnlyAt(s, Next(s, t), Subject(s, t))
    ensures var r, n := Subject(s, t), Next(s, t);
            n.answers == s.answers && (WasAnswered(n.reqs[r].phase) <==> WasAnswered(s.reqs[r].phase))
  {
    hide KeyOf;
  }

  lemma AnswersKept(s: State, t: Step)
    requires TableFits(s) && WaitersFit(s) && AnswersFit(s) && Enabled(s, t)
    ensures AnswersFit(Next(s, t))
  {
    assert |s.reqs| == |s.waiters|;
    if t.Answer? {
      AnswersKeptByAnswer(s, t);
      hide *;
    } else if t.Arrive? || t.Confirm? || t.LookUp? {
      hide TableFits, WaitersFit, AnswersFit, KeyOf;
      AnswersStay(s, Next(s, t));
    } else {
      StepIsLocal(s, t);
      hide TableFits, WaitersFit, AnswersFit, KeyOf, Next, Enabled, Subject, OnlyAt;
      SendsNothing(s, t);
      AnswersStayAt(s, Next(s, t), Subject(s, t));
    }
  }

  lemma AnswersKeptByAnswer(s: State, t: Step)
    requires TableFits(s) && WaitersFit(s) && AnswersFit(s) && Enabled(s, t) && t.Answer?
    ensures AnswersFit(Next(s, t))
  {
    StepIsLocal(s, t);
    OwnWaiterFits(s, t);
    hide TableFits, WaitersFit, AnswersFit, OnlyAt, KeyOf;
    AnswersAdded(s, Next(s, t), t.r, Reply(t.r, s.reqs[t.r].fd, s.reqs[t.r].pair));
  }

  /** Between `s` and `n` no request opened or closed, and no callback moved. */
  ghost predicate Quiet(s: State, n: State) {
    && |s.reqs| == |s.waiters| <= |n.reqs| == |n.waiters| && n.calls == s.calls && n.due == s.due
    && (forall r :: 0 <= r < |n.reqs| ==>
          if r < |s.reqs| then n.reqs[r].pair == s.reqs[r].pair && (Open(n, r) <==> Open(s, r))
                               && n.waiters[r].locked == s.waiters[r].locked
          else !Open(n, r) && !n.waiters[r].locked)
    && (forall k :: k in s.table && Open(s, s.table[k]) ==> k in n.table && n.table[k] == s.table[k])
  }

  /** A thread's step that neither sends nor consumes a confirmation. */
  lemma QuietAt(s: State, n: State, r: nat)
    requires OnlyAt(s, n, r) && n.calls == s.calls && n.due == s.due
    requires Open(n, r) <==> Open(s, r)
    requires n.waiters[r].locked == s.waiters[r].locked
    requires forall k :: k in s.table && s.table[k] != r ==> k in n.table && n.table[k] == s.table[k]
    requires Open(s, r) ==> n.table == s.table
    ensures Quiet(s, n)
  {
  }

  lemma ThreadIsQuiet(s: State, t: Step)
    requires TableFits(s) && WaitersFit(s) && Enabled(s, t) && ByThread(t)
    ensures Quiet(s, Next(s, t))
  {
    if t.Arrive? {
      hide KeyOf;
    } else if t.Register? || t.Remove? {
      QuietByKey(s, t);
      hide *;
    } else {
      StepIsLocal(s, t);
      OwnWaiterFits(s, t);
      hide TableFits, WaitersFit, KeyOf, Quiet;
      QuietAt(s, Next(s, t), t.r);
    }
  }

  lemma QuietByKey(s: State, t: Step)
    requires TableFits(s) && WaitersFit(s) && Enabled(s, t) && (t.Register? || t.Remove?)
    ensures Quiet(s, Next(s, t))
  {
    StepIsLocal(s, t);
    OwnWaiterFits(s, t);
    if t.Remove? { assert s.table[KeyOf(s.reqs[t.r].pair)] == t.r; }
    hide TableFits, WaitersFit, KeyOf, Quiet;
    QuietAt(s, Next(s, t), t.r);
  }

  lemma QuietKeepsCalls(s: State, n: State)
    requires CallsFit(s) && Quiet(s, n)
    ensures CallsFit(n)
  {
    hide KeyOf;
  }

  lemma QuietKeepsOne(s: State, n: State)
    requires OneEach(s) && Quiet(s, n)
    ensures OneEach(n)
  {
    hide KeyOf;
  }

  lemma QuietKeepsServed(s: State, n: State)
    requires Served(s) && Quiet(s, n)
    ensures Served(n)
  {
    forall r | 0 <= r < |n.reqs| && Open(n, r) && n.reqs[r].pair !in n.due ensures CalledFor(n, n.reqs[r].pair) {
      assert Open(s, r) && CalledFor(s, s.reqs[r].pair);
    }
    forall r | 0 <= r < |n.waiters| && n.waiters[r].locked ensures LockedBy(n, r) {
      assert LockedBy(s, r);
    }
  }

  // ---------------------------------------------------------------- confirmations

  /** A request that has not been sent has no confirmation to come, and no callback. */
  lemma NothingComes(s: State, r: nat)
    requires TableFits(s) && CallsFit(s) && OneEach(s) && At(s, r, Added)
    ensures s.reqs[r].pair !in s.due && !CalledFor(s, s.reqs[r].pair)
  {
    hide KeyOf;
    assert s.table[KeyOf(s.reqs[r].pair)] == r;
  }

  /** What sending request `r` with pair `p` does. */
  ghost predicate Sending(s: State, n: State, r: nat, p: Pair) {
    && OnlyAt(s, n, r) && n.table == s.table && n.calls == s.calls && n.due == s.due + multiset{p}
    && s.reqs[r].pair == p && KeyOf(p) in s.table && s.table[KeyOf(p)] == r
    && !Open(s, r) && Open(n, r) && n.waiters[r].locked == s.waiters[r].locked
  }

  lemma SendOutSends(s: State, r: nat)
    requires TableFits(s) && WaitersFit(s) && Enabled(s, SendOut(r))
    ensures Sending(s, Next(s, SendOut(r)), r, s.reqs[r].pair)
  {
    StepIsLocal(s, SendOut(r));
    OwnWaiterFits(s, SendOut(r));
    assert s.table[KeyOf(s.reqs[r].pair)] == r;
    hide KeyOf, TableFits, WaitersFit;
  }

  lemma SendingKeepsCalls(s: State, n: State, r: nat, p: Pair)
    requires CallsFit(s) && Sending(s, n, r, p)
    ensures CallsFit(n)
  {
    hide KeyOf;
  }

  lemma SendingKeepsOne(s: State, n: State, r: nat, p: Pair)
    requires OneEach(s) && Sending(s, n, r, p) && p !in s.due && !CalledFor(s, p)
    ensures OneEach(n)
  {
    hide KeyOf;
  }

  lemma SendingKeepsServed(s: State, n: State, r: nat, p: Pair)
    requires Served(s) && Sending(s, n, r, p)
    ensures Served(n)
  {
    hide KeyOf;
    forall q | 0 <= q < |n.reqs| && Open(n, q) && n.reqs[q].pair !in n.due ensures CalledFor(n, n.reqs[q].pair) {
      assert q != r && Open(s, q) && CalledFor(s, s.reqs[q].pair);
    }
    forall q | 0 <= q < |n.waiters| && n.waiters[q].locked ensures LockedBy(n, q) { assert LockedBy(s, q); }
  }

  /** What the arrival of the confirmation for `p` does. */
  ghost predicate Confirming(s: State, n: State, p: Pair) {
    && p in s.due && n.calls == s.calls + [Callback(p, Looking)]
    && n == s.(due := s.due - multiset{p}, calls := n.calls)
  }

  lemma ConfirmingKeepsCalls(s: State, n: State, p: Pair)
    requires CallsFit(s) && OneEach(s) && Confirming(s, n, p)
    ensures CallsFit(n)
  {
    hide KeyOf;
  }

  lemma ConfirmingKeepsOne(s: State, n: State, p: Pair)
    requires OneEach(s) && Confirming(s, n, p)
    ensures OneEach(n)
  {
    hide KeyOf;
  }

  lemma ConfirmingKeepsServed(s: State, n: State, p: Pair)
    requires OneEach(s) && Served(s) && Confirming(s, n, p)
    ensures Served(n)
  {
    assert s.due[p] == 1 && n.calls[|s.calls|].pair == p;
    hide KeyOf, OneEach;
    forall q | 0 <= q < |n.reqs| && Open(n, q) && n.reqs[q].pair !in n.due ensures CalledFor(n, n.reqs[q].pair) {
      assert Open(s, q);
      if n.reqs[q].pair != p { Still(s, n, n.reqs[q].pair); }
    }
    forall q | 0 <= q < |n.waiters| && n.waiters[q].locked ensures LockedBy(n, q) {
      assert LockedBy(s, q);
      var cb :| 0 <= cb < |s.calls| && s.calls[cb].phase == Locked(q);
      assert n.calls[cb].phase == Locked(q);
    }
  }

  /** Callbacks that are under way stay so when one more begins. */
  lemma Still(s: State, n: State, p: Pair)
    requires CalledFor(s, p) && |s.calls| <= |n.calls| && n.calls[..|s.calls|] == s.calls
    ensures CalledFor(n, p)
  {
    var cb :| 0 <= cb < |s.calls| && s.calls[cb].phase != Over && s.calls[cb].pair == p;
    assert n.calls[..|s.calls|][cb] == n.calls[cb];
  }

  /** What callback `cb` does on its way: it finds the waiter of request `r`, or locks it. */
  ghost predicate Advancing(s: State, n: State, cb: nat, r: nat) {
    && cb < |s.calls| && r < |s.reqs| == |s.waiters|
    && |n.calls| == |s.calls| && |n.waiters| == |s.waiters|
    && (s.calls[cb].phase.Looking? || s.calls[cb].phase.Holding?)
    && n.calls == s.calls[cb := n.calls[cb]] && n.calls[cb].pair == s.calls[cb].pair
    && n == s.(calls := n.calls, waiters := n.waiters) && n.waiters == s.waiters[r := n.waiters[r]]
    && n.waiters[r] == s.waiters[r].(locked := n.waiters[r].locked)
    && KeyOf(s.calls[cb].pair) in s.table && s.table[KeyOf(s.calls[cb].pair)] == r
    && (n.calls[cb].phase == Holding(r) || n.calls[cb].phase == Locked(r))
    && (n.waiters[r].locked <==> n.calls[cb].phase == Locked(r))
    && (s.waiters[r].locked ==> n.waiters[r].locked)
  }

  lemma AdvancingKeepsCalls(s: State, n: State, cb: nat, r: nat)
    requires CallsFit(s) && OneEach(s) && Advancing(s, n, cb, r)
    ensures CallsFit(n)
  {
    hide KeyOf;
    assert s.calls[cb].phase != Over;
  }

  lemma AdvancingKeepsOne(s: State, n: State, cb: nat, r: nat)
    requires OneEach(s) && Advancing(s, n, cb, r)
    ensures OneEach(n)
  {
    hide KeyOf;
  }

  lemma AdvancingKeepsServed(s: State, n: State, cb: nat, r: nat)
    requires Served(s) && Advancing(s, n, cb, r)
    ensures Served(n)
  {
    hide KeyOf;
    forall q | 0 <= q < |n.reqs| && Open(n, q) && n.reqs[q].pair !in n.due ensures CalledFor(n, n.reqs[q].pair) {
      assert Open(s, q) && CalledFor(s, s.reqs[q].pair);
      var c :| 0 <= c < |s.calls| && s.calls[c].phase != Over && s.calls[c].pair == s.reqs[q].pair;
      assert n.calls[c].pair == s.reqs[q].pair;
    }
    forall q | 0 <= q < |n.waiters| && n.waiters[q].locked ensures LockedBy(n, q) {
      if q == r {
        assert n.calls[cb].phase == Locked(r);
      } else {
        assert LockedBy(s, q);
        var c :| 0 <= c < |s.calls| && s.calls[c].phase == Locked(q);
        assert n.calls[c].phase == s.calls[c].phase || c == cb;
      }
    }
  }

  /** The waiter of the request that a callback is for is locked by no other callback. */
  lemma NotLocked(s: State, cb: nat)
    requires CallsFit(s) && OneEach(s) && Served(s) && cb < |s.calls|
    requires s.calls[cb].phase.Looking? || s.calls[cb].phase.Holding?
    ensures var key := KeyOf(s.calls[cb].pair);
            key in s.table && Open(s, s.table[key]) && !s.waiters[s.table[key]].locked
    ensures s.calls[cb].phase.Holding? ==> s.calls[cb].phase.w == s.table[KeyOf(s.calls[cb].pair)]
  {
    hide KeyOf;
    var r := s.table[KeyOf(s.calls[cb].pair)];
    assert s.reqs[r].pair == s.calls[cb].pair;
    LockersPair(s, r);
    assert s.waiters[r].locked ==> LockedBy(s, r);
  }

  lemma LockersPair(s: State, r: nat)
    requires CallsFit(s) && r < |s.reqs|
    ensures forall c :: 0 <= c < |s.calls| && s.calls[c].phase == Locked(r) ==> s.calls[c].pair == s.reqs[r].pair
  {
    hide KeyOf;
  }

  lemma CallAdvances(s: State, t: Step)
    requires TableFits(s) && CallsFit(s) && OneEach(s) && Served(s) && Enabled(s, t) && (t.LookUp? || t.Seize?)
    ensures Advancing(s, Next(s, t), t.cb, s.table[KeyOf(s.calls[t.cb].pair)])
  {
    NotLocked(s, t.cb);
    hide KeyOf, TableFits, CallsFit, OneEach, Served;
  }

  /** What callback `cb` does last: it stores the response, signals and unlocks. */
  ghost predicate Completing(s: State, n: State, cb: nat, r: nat) {
    && cb < |s.calls| && s.calls[cb].phase == Locked(r) && OnlyAt(s, n, r)
    && KeyOf(s.calls[cb].pair) in s.table && s.table[KeyOf(s.calls[cb].pair)] == r
    && n.calls == s.calls[cb := s.calls[cb].(phase := Over)] && n.table == s.table && n.due == s.due
    && !Open(n, r) && !n.waiters[r].locked
  }

  lemma CallCompletes(s: State, cb: nat)
    requires TableFits(s) && CallsFit(s) && Enabled(s, Complete(cb))
    ensures Completing(s, Next(s, Complete(cb)), cb, s.calls[cb].phase.w)
  {
    assert s.calls[cb].phase != Over;
    assert Open(s, s.calls[cb].phase.w);
    StepIsLocal(s, Complete(cb));
    hide KeyOf, TableFits, CallsFit;
  }

  lemma CompletingKeepsCalls(s: State, n: State, cb: nat, r: nat)
    requires CallsFit(s) && OneEach(s) && Completing(s, n, cb, r)
    ensures CallsFit(n)
  {
    hide KeyOf;
    assert s.calls[cb].phase != Over;
  }

  lemma CompletingKeepsOne(s: State, n: State, cb: nat, r: nat)
    requires CallsFit(s) && OneEach(s) && Completing(s, n, cb, r)
    ensures OneEach(n)
  {
    hide KeyOf;
    assert s.calls[cb].phase != Over;
  }

  lemma CompletingKeepsServed(s: State, n: State, cb: nat, r: nat)
    requires CallsFit(s) && Served(s) && Completing(s, n, cb, r) && TableFits(s)
    ensures Served(n)
  {
    forall q | 0 <= q < |n.reqs| && Open(n, q) && n.reqs[q].pair !in n.due ensures CalledFor(n, n.reqs[q].pair) {
      StillCalled(s, n, cb, r, q);
    }
    hide KeyOf, TableFits, CallsFit;
    forall q | 0 <= q < |n.waiters| && n.waiters[q].locked ensures LockedBy(n, q) {
      assert LockedBy(s, q);
      var c :| 0 <= c < |s.calls| && s.calls[c].phase == Locked(q);
      assert n.calls[c].phase == Locked(q);
    }
  }

  lemma StillCalled(s: State, n: State, cb: nat, r: nat, q: nat)
    requires CallsFit(s) && Served(s) && Completing(s, n, cb, r) && TableFits(s)
    requires Open(n, q) && n.reqs[q].pair !in n.due
    ensures CalledFor(n, n.reqs[q].pair)
  {
    hide KeyOf;
    assert s.calls[cb].phase != Over && s.reqs[r].pair == s.calls[cb].pair;
    assert q != r && Open(s, q) && CalledFor(s, s.reqs[q].pair);
    var c :| 0 <= c < |s.calls| && s.calls[c].phase != Over && s.calls[c].pair == s.reqs[q].pair;
    assert s.table[KeyOf(s.reqs[q].pair)] == q;
    assert n.calls[c].pair == s.reqs[q].pair;
  }

  lemma QuietKeeps(s: State, n: State)
    requires CallsFit(s) && OneEach(s) && Served(s) && Quiet(s, n)
    ensures CallsFit(n) && OneEach(n) && Served(n)
  {
    hide CallsFit, OneEach, Served, Quiet;
    QuietKeepsCalls(s, n);
    QuietKeepsOne(s, n);
    QuietKeepsServed(s, n);
  }

  lemma CallsKept(s: State, t: Step)
    requires Inv(s) && Enabled(s, t)
    ensures var n := Next(s, t); CallsFit(n) && OneEach(n) && Served(n)
  {
    var n := Next(s, t);
    if ByThread(t) {
      ThreadIsQuiet(s, t);
      QuietKeeps(s, n);
      hide *;
    } else {
      TokensKept(s, t, n);
      hide *;
    }
  }

  lemma TokensKept(s: State, t: Step, n: State)
    requires TableFits(s) && WaitersFit(s) && CallsFit(s) && OneEach(s) && Served(s)
    requires Enabled(s, t) && !ByThread(t) && n == Next(s, t)
    ensures CallsFit(n) && OneEach(n) && Served(n)
  {
    if t.Confirm? {
      assert Confirming(s, n, t.pair) by { hide TableFits, WaitersFit, CallsFit, OneEach, Served, KeyOf; }
    }
    hide TableFits, WaitersFit, CallsFit, OneEach, Served, Sending, Confirming, Advancing, Completing, Next, KeyOf;
    if t.SendOut? {
      var r, p := t.r, s.reqs[t.r].pair;
      NothingComes(s, r);
      SendOutSends(s, r);
      SendingKeepsCalls(s, n, r, p);
      SendingKeepsOne(s, n, r, p);
      SendingKeepsServed(s, n, r, p);
    } else if t.Confirm? {
      ConfirmingKeepsCalls(s, n, t.pair);
      ConfirmingKeepsOne(s, n, t.pair);
      ConfirmingKeepsServed(s, n, t.pair);
    } else if t.Complete? {
      var cb, r := t.cb, s.calls[t.cb].phase.w;
      CallCompletes(s, cb);
      CompletingKeepsCalls(s, n, cb, r);
      CompletingKeepsOne(s, n, cb, r);
      CompletingKeepsServed(s, n, cb, r);
    } else {
      CallAdvances(s, t);
      NotLocked(s, t.cb);
      var r := s.table[KeyOf(s.calls[t.cb].pair)];
      AdvancingKeepsCalls(s, n, t.cb, r);
      AdvancingKeepsOne(s, n, t.cb, r);
      AdvancingKeepsServed(s, n, t.cb, r);
    }
  }

  lemma StepKeepsInv(s: State, t: Step)
    requires Inv(s) && Enabled(s, t)
    ensures Inv(Next(s, t))
  {
    hide TableFits, WaitersFit, CallsFit, OneEach, Served, AnswersFit, Enabled, Next;
    TableKept(s, t);
    WaitersKept(s, t);
    AnswersKept(s, t);
    CallsKept(s, t);
  }

  // ---------------------------------------------------------------- every run

  /** The state after the steps, if each is enabled when it comes. */
  function Run(steps: seq<Step>): Option<State> {
    if steps == [] then Some(Initial)
    else
      match Run(steps[..|steps| - 1])
      case None => None
      case Some(s) => if Enabled(s, steps[|steps| - 1]) then Some(Next(s, steps[|steps| - 1])) else None
  }

  lemma {:induction false} RunKeepsInv(steps: seq<Step>)
    requires Run(steps).Some?
    ensures Inv(Run(steps).value)
  {
    hide Inv, Enabled, Next;
    if steps == [] {
      InitialInv();
    } else {
      RunKeepsInv(steps[..|steps| - 1]);
      StepKeepsInv(Run(steps[..|steps| - 1]).value, steps[|steps| - 1]);
    }
  }

  lemma InitialInv()
    ensures Inv(Initial)
  {
  }

  /** The waiters whose memory a step reads or writes. */
  function Touched(s: State, t: Step): set<nat>
    requires Enabled(s, t)
  {
    if t.Arrive? || t.SendOut? || t.Confirm? || t.LookUp? then {}
    else if t.Seize? || t.Complete? then {s.calls[t.cb].phase.w}
    else if t.Remove? && KeyOf(s.reqs[t.r].pair) in s.table then {t.r, s.table[KeyOf(s.reqs[t.r].pair)]}
    else {t.r}
  }

  /** Under every interleaving of threads and callbacks the table's entries are the requests
      that registered and have not been removed, each under its own key. A request without
      an answer to send is one of them for good. */
  lemma TableIsRegistered(steps: seq<Step>)
    requires Run(steps).Some?
    ensures var s := Run(steps).value;
            && (forall k :: k in s.table ==>
                  s.table[k] < |s.reqs| && KeyOf(s.reqs[s.table[k]].pair) == k && HoldsEntry(s.reqs[s.table[k]].phase))
            && (forall r :: 0 <= r < |s.reqs| && HoldsEntry(s.reqs[r].phase) ==>
                  KeyOf(s.reqs[r].pair) in s.table && s.table[KeyOf(s.reqs[r].pair)] == r)
  {
    RunKeepsInv(steps);
    hide Run, KeyOf, WaitersFit, CallsFit, OneEach, Served, AnswersFit;
  }

  /** No step, of a thread or of a callback, touches a waiter that was destroyed. */
  lemma NoStepTouchesTheDestroyed(steps: seq<Step>, t: Step, w: nat)
    requires Run(steps).Some? && Enabled(Run(steps).value, t) && w in Touched(Run(steps).value, t)
    ensures w < |Run(steps).value.waiters| && Run(steps).value.waiters[w].alive
  {
    RunKeepsInv(steps);
    hide Run, Inv, Enabled, Touched;
    TouchesLiving(Run(steps).value, t, w);
  }

  /** No thread sleeps unsignalled on a waiter that is ready. */
  lemma NoneSleepsReady(steps: seq<Step>, r: nat)
    requires Run(steps).Some? && At(Run(steps).value, r, Asleep)
    ensures !Run(steps).value.waiters[r].ready
  {
    RunKeepsInv(steps);
    var s := Run(steps).value;
    assert WaiterFits(s.reqs[r], s.waiters[r]);
    hide Run, KeyOf, TableFits, CallsFit, OneEach, Served, AnswersFit;
  }

  lemma TouchesLiving(s: State, t: Step, w: nat)
    requires Inv(s) && Enabled(s, t) && w in Touched(s, t)
    ensures w < |s.waiters| && s.waiters[w].alive
  {
    if t.Remove? { assert s.table[KeyOf(s.reqs[t.r].pair)] == t.r; }
    if t.Seize? || t.Complete? { assert s.calls[t.cb].phase != Over; }
    assert w < |s.reqs| && WaiterFits(s.reqs[w], s.waiters[w]);
    hide KeyOf, TableFits, WaitersFit, CallsFit, OneEach, Served, AnswersFit;
  }

  /** Every request is answered at most once, on the descriptor it came from and with its
      own nodeid and message number. */
  lemma AnsweredOnce(steps: seq<Step>)
    requires Run(steps).Some?
    ensures var s := Run(steps).value;
            && (forall i :: 0 <= i < |s.answers| ==>
                  && s.answers[i].r < |s.reqs|
                  && s.answers[i].fd == s.reqs[s.answers[i].r].fd && s.answers[i].pair == s.reqs[s.answers[i].r].pair)
            && (forall i, j :: 0 <= i < j < |s.answers| ==> s.answers[i].r != s.answers[j].r)
  {
    RunKeepsInv(steps);
    hide Run, TableFits, WaitersFit, CallsFit, OneEach, Served;
  }

  /** Nothing more happens but arrivals and wake-ups without reason. */
  ghost predicate AtRest(s: State) {
    forall t :: Enabled(s, t) ==> t.Arrive? || t.Wake?
  }

  /** The steps never leave a request hanging: at rest, every request is over. Either its
      key was taken, or it was answered, or no answer could be built. */
  lemma NothingHangs(steps: seq<Step>, r: nat)
    requires Run(steps).Some? && AtRest(Run(steps).value) && r < |Run(steps).value.reqs|
    ensures var s := Run(steps).value;
            && s.reqs[r].phase in {Refused, Done, Dropped}
            && (s.reqs[r].phase == Done <==> HasAnswer(s, r))
  {
    hide Run, Inv, AtRest;
    RunKeepsInv(steps);
    RestIsOver(Run(steps).value, r);
  }

  lemma RestIsOver(s: State, r: nat)
    requires Inv(s) && AtRest(s) && r < |s.reqs|
    ensures s.reqs[r].phase in {Refused, Done, Dropped}
    ensures s.reqs[r].phase == Done <==> HasAnswer(s, r)
  {
    NotWaiting(s, r);
    Rests(s, Register(r));
    Rests(s, SendOut(r));
    Rests(s, Build(r, true));
    Rests(s, Answer(r));
    Rests(s, Remove(r));
    OnlyAnswered(s, r);
    assert WaiterFits(s.reqs[r], s.waiters[r]);
    assert HoldsEntry(s.reqs[r].phase) ==> s.table[KeyOf(s.reqs[r].pair)] == r;
    hide KeyOf, TableFits, WaitersFit, CallsFit, OneEach, Served, AnswersFit, AtRest, HasAnswer;
  }

  lemma OnlyAnswered(s: State, r: nat)
    requires AnswersFit(s) && r < |s.reqs|
    ensures WasAnswered(s.reqs[r].phase) <==> HasAnswer(s, r)
  {
  }

  lemma Rests(s: State, t: Step)
    requires AtRest(s)
    ensures Enabled(s, t) ==> t.Arrive? || t.Wake?
  {
  }

  lemma NotWaiting(s: State, r: nat)
    requires Inv(s) && AtRest(s) && r < |s.reqs|
    ensures !Waiting(s.reqs[r].phase)
  {
    NoneOpen(s, r);
    Rests(s, EnterWait(r));
    Rests(s, Recheck(r));
    assert WaiterFits(s.reqs[r], s.waiters[r]);
    hide KeyOf, TableFits, CallsFit, OneEach, Served, AnswersFit, AtRest;
  }

  lemma NoneOpen(s: State, r: nat)
    requires Inv(s) && AtRest(s) && r < |s.reqs|
    ensures !Open(s, r)
  {
    hide KeyOf, AnswersFit, WaitersFit, OneEach;
    forall cb | 0 <= cb < |s.calls| ensures s.calls[cb].phase == Over { CallIsOver(s, cb); }
    Rests(s, Confirm(s.reqs[r].pair));
    hide TableFits, CallsFit, AtRest;
  }

  lemma CallIsOver(s: State, cb: nat)
    requires Inv(s) && AtRest(s) && cb < |s.calls|
    ensures s.calls[cb].phase == Over
  {
    hide KeyOf, AnswersFit, WaitersFit, AtRest, OneEach;
    forall c | 0 <= c < |s.calls| ensures !s.calls[c].phase.Locked? { Rests(s, Complete(c)); }
    Rests(s, LookUp(cb));
    Rests(s, Seize(cb));
    assert forall w :: 0 <= w < |s.waiters| && s.waiters[w].locked ==> LockedBy(s, w);
  }

  // ---------------------------------------------------------------- each request's history

  /** When request `r` registered, its key was taken. */
  ghost predicate KeyWasTaken(steps: seq<Step>, r: nat) {
    exists i :: TakenAt(steps, r, i)
  }

  ghost predicate TakenAt(steps: seq<Step>, r: nat, i: int) {
    0 <= i < |steps| && steps[i] == Register(r)
    && match Run(steps[..i])
       case None => false
       case Some(s) => r < |s.reqs| && KeyOf(s.reqs[r].pair) in s.table
  }

  predicate HasBuilt(p: Phase) { p == Answering || p == Answered || p == Done }

  /** What a step tells about a request's history: the request's phase is `q` before it and
      `p` after it. */
  predicate Logged(q: Phase, p: Phase, taken: bool, built: bool, failed: bool) {
    && (p == Refused <==> q == Refused || taken)
    && (HasBuilt(p) <==> HasBuilt(q) || built)
    && (p == Dropped <==> q == Dropped || failed)
  }

  ghost predicate TakenBy(s: State, t: Step, r: nat) {
    t == Register(r) && r < |s.reqs| && KeyOf(s.reqs[r].pair) in s.table
  }

  ghost predicate Recorded(s: State, t: Step, n: State, r: nat) {
    && r < |s.reqs| <= |n.reqs| && n.reqs[r].pair == s.reqs[r].pair
    && Logged(s.reqs[r].phase, n.reqs[r].phase, TakenBy(s, t, r), t == Build(r, true), t == Build(r, false))
  }

  lemma WaitRecords(s: State, t: Step)
    requires |s.reqs| == |s.waiters| && Enabled(s, t) && InWait(t)
    ensures Recorded(s, t, Next(s, t), t.r)
  {
  }

  lemma CallRecords(s: State, t: Step)
    requires |s.reqs| == |s.waiters| && Enabled(s, t) && (t.Seize? || t.Complete?)
    ensures Recorded(s, t, Next(s, t), Subject(s, t))
  {
  }

  lemma RegisterRecords(s: State, t: Step)
    requires |s.reqs| == |s.waiters| && Enabled(s, t) && t.Register?
    ensures Recorded(s, t, Next(s, t), t.r)
  {
    hide KeyOf;
  }

  lemma BuildRecords(s: State, t: Step)
    requires |s.reqs| == |s.waiters| && WaitersFit(s) && Enabled(s, t) && t.Build?
    ensures Recorded(s, t, Next(s, t), t.r)
  {
    assert WaiterFits(s.reqs[t.r], s.waiters[t.r]);
    hide WaitersFit;
  }

  lemma OtherRecords(s: State, t: Step)
    requires |s.reqs| == |s.waiters| && Enabled(s, t) && (t.SendOut? || t.Answer?)
    ensures Recorded(s, t, Next(s, t), t.r)
  {
    hide KeyOf;
  }

  lemma RemoveRecords(s: State, t: Step)
    requires TableFits(s) && Enabled(s, t) && t.Remove?
    ensures Recorded(s, t, Next(s, t), t.r)
  {
    assert s.table[KeyOf(s.reqs[t.r].pair)] == t.r;
    hide KeyOf, TableFits;
  }

  lemma SubjectRecords(s: State, t: Step)
    requires TableFits(s) && WaitersFit(s) && Enabled(s, t) && !t.Arrive? && !t.Confirm? && !t.LookUp?
    ensures Recorded(s, t, Next(s, t), Subject(s, t))
  {
    assert |s.reqs| == |s.waiters|;
    hide TableFits, WaitersFit, KeyOf, Next, Enabled, Recorded;
    if InWait(t) {
      WaitRecords(s, t);
    } else if t.Seize? || t.Complete? {
      CallRecords(s, t);
    } else if t.Register? {
      RegisterRecords(s, t);
    } else if t.Build? {
      BuildRecords(s, t);
    } else if t.Remove? {
      RemoveRecords(s, t);
    } else {
      OtherRecords(s, t);
    }
  }

  /** A request that a step leaves alone. */
  lemma BystanderRecords(s: State, t: Step, n: State, r: nat)
    requires r < |s.reqs| <= |n.reqs| && n.reqs[r] == s.reqs[r]
    requires t.Register? || t.Build? ==> t.r != r
    ensures Recorded(s, t, n, r)
  {
    hide KeyOf;
  }

  lemma StepRecords(s: State, t: Step, r: nat)
    requires TableFits(s) && WaitersFit(s) && Enabled(s, t) && r < |s.reqs|
    ensures Recorded(s, t, Next(s, t), r)
  {
    var n := Next(s, t);
    if t.Arrive? || t.Confirm? || t.LookUp? {
      hide KeyOf, TableFits, WaitersFit, Recorded;
      BystanderRecords(s, t, n, r);
    } else {
      StepIsLocal(s, t);
      SubjectRecords(s, t);
      hide KeyOf, TableFits, WaitersFit, Next, Enabled, Recorded;
      if r != Subject(s, t) {
        assert n.reqs[r] == s.reqs[r];
        BystanderRecords(s, t, n, r);
      }
    }
  }

  /** A request that just arrived has no history. */
  lemma NewRecords(s: State, t: Step, r: nat)
    requires TableFits(s) && Enabled(s, t) && |s.reqs| <= r < |Next(s, t).reqs|
    ensures t.Arrive? && Next(s, t).reqs[r].phase == Made
  {
    if !t.Arrive? && !t.Confirm? && !t.LookUp? { StepIsLocal(s, t); }
    hide KeyOf, TableFits;
  }

  /** Where a request is tells what happened to it. */
  lemma {:induction false} PhaseTellsHistory(steps: seq<Step>, r: nat)
    requires Run(steps).Some? && r < |Run(steps).value.reqs|
    ensures var p := Run(steps).value.reqs[r].phase;
            && (p == Refused <==> KeyWasTaken(steps, r))
            && (HasBuilt(p) <==> Build(r, true) in steps)
            && (p == Dropped <==> Build(r, false) in steps)
  {
    hide KeyOf, Next, Enabled, TableFits, WaitersFit, CallsFit, OneEach, Served, AnswersFit, KeyWasTaken;
    if steps != [] {
      var front, t := steps[..|steps| - 1], steps[|steps| - 1];
      var s := Run(front).value;
      RunKeepsInv(front);
      HistoryGrows(front, t, r);
      assert steps == front + [t];
      if r < |s.reqs| {
        PhaseTellsHistory(front, r);
        StepRecords(s, t, r);
      } else {
        NewRecords(s, t, r);
        NothingBefore(front, r);
      }
    }
  }

  /** No step speaks of a request that has not arrived. */
  lemma {:induction false} NothingBefore(steps: seq<Step>, r: nat)
    requires Run(steps).Some? && |Run(steps).value.reqs| <= r
    ensures !KeyWasTaken(steps, r) && forall ok :: Build(r, ok) !in steps
  {
    hide KeyOf, Inv, KeyWasTaken;
    if steps == [] {
      NothingTaken(r);
    } else {
      var front, t := steps[..|steps| - 1], steps[|steps| - 1];
      OnlyGrows(Run(front).value, t);
      NothingBefore(front, r);
      HistoryGrows(front, t, r);
      assert steps == front + [t];
    }
  }

  lemma NothingTaken(r: nat)
    ensures !KeyWasTaken([], r)
  {
  }

  lemma OnlyGrows(s: State, t: Step)
    requires Enabled(s, t)
    ensures |s.reqs| <= |Next(s, t).reqs|
  {
    hide KeyOf;
  }

  /** At rest a request has been answered exactly when its key was free when it registered
      and its own answer could be built. */
  lemma AnsweredIff(steps: seq<Step>, r: nat)
    requires Run(steps).Some? && AtRest(Run(steps).value) && r < |Run(steps).value.reqs|
    ensures HasAnswer(Run(steps).value, r) <==> !KeyWasTaken(steps, r) && Build(r, false) !in steps
    ensures HasAnswer(Run(steps).value, r) <==> Build(r, true) in steps
  {
    NothingHangs(steps, r);
    PhaseTellsHistory(steps, r);
    hide Run, AtRest, KeyWasTaken, HasAnswer;
  }

  /** One more step in a history. */
  lemma HistoryGrows(front: seq<Step>, t: Step, r: nat)
    requires Run(front).Some?
    ensures KeyWasTaken(front + [t], r) <==> KeyWasTaken(front, r) || TakenBy(Run(front).value, t, r)
    ensures forall u :: u in front + [t] <==> u in front || u == t
  {
    var steps := front + [t];
    assert steps[..|front|] == front;
    hide Run, KeyOf;
    assert forall i :: 0 <= i < |front| ==> steps[..i] == front[..i] && steps[i] == front[i];
    forall i: int | 0 <= i < |front|
      ensures TakenAt(steps, r, i) <==> TakenAt(front, r, i)
    {
    }
    assert TakenAt(steps, r, |front|) <==> TakenBy(Run(front).value, t, r);
  }

  /** With every answer built, a run at rest has answered each accepted request exactly
      once, and the table is empty. */
  lemma EveryRequestAnswered(steps: seq<Step>)
    requires Run(steps).Some? && AtRest(Run(steps).value)
    requires forall i :: 0 <= i < |steps| && steps[i].Build? ==> steps[i].ok
    ensures var s := Run(steps).value;
            && s.table == map[]
            && forall r :: 0 <= r < |s.reqs| ==> s.reqs[r].phase == Refused || HasAnswer(s, r)
  {
    var s := Run(steps).value;
    TableIsRegistered(steps);
    hide Run, KeyOf, AtRest, HasAnswer, Enabled, Next;
    forall r | 0 <= r < |s.reqs|
      ensures s.reqs[r].phase == Refused || (s.reqs[r].phase == Done && HasAnswer(s, r))
    {
      NothingHangs(steps, r);
      PhaseTellsHistory(steps, r);
      assert forall i :: 0 <= i < |steps| ==> steps[i] != Build(r, false);
    }
    assert forall k :: k !in s.table;
  }
}
