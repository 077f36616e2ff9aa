/** `CRCPtr`: handles that share a pointee and its counter. Memory is explicit: handles,
    counters and pointees are numbered, and every `delete` is counted. */
module RcPtr {
  import opened Bytes

  /** A handle out of scope, or one with its `iPtr` and `iCount`. */
  datatype Handle = Gone | Live(ptr: Option<nat>, count: nat)

  /** A counter: its number, the pointee it was made for, how often it was deleted. */
  datatype Counter = Counter(n: nat, ptr: Option<nat>, deleted: nat)

  /** `pointees[o]` says how often pointee `o` was deleted. */
  datatype Mem = Mem(handles: seq<Handle>, counters: seq<Counter>, pointees: seq<nat>)

  datatype Op =
    | Construct(isNull: bool)   // a raw pointer that no other handle wraps, or null
    | Copy(from: nat)
    | Assign(to: nat, from: nat)
    | Unique(h: nat)
    | Destroy(h: nat)

  predicate IsLive(m: Mem, h: nat) {
    h < |m.handles| && m.handles[h].Live? && m.handles[h].count < |m.counters|
    && (m.handles[h].ptr.Some? ==> m.handles[h].ptr.value < |m.pointees|)
  }

  predicate Enabled(m: Mem, op: Op) {
    match op
    case Construct(_) => true
    case Copy(g) => IsLive(m, g)
    case Assign(h, g) => IsLive(m, h) && IsLive(m, g)
    case Unique(h) => IsLive(m, h)
    case Destroy(h) => IsLive(m, h)
  }

  /** `--*iCount`, and both deletions when it reaches zero. */
  function Dropped(m: Mem, h: nat): Mem
    requires IsLive(m, h)
  {
    var c := m.counters[m.handles[h].count];
    var n := if c.n > 0 then c.n - 1 else 0;
    if n > 0 then m.(counters := m.counters[m.handles[h].count := c.(n := n)])
    else m.(counters := m.counters[m.handles[h].count := c.(n := 0, deleted := c.deleted + 1)],
            pointees := Deleted(m.pointees, m.handles[h].ptr))
  }

  /** `delete iPtr`; deleting null does nothing. */
  function Deleted(pointees: seq<nat>, ptr: Option<nat>): (r: seq<nat>)
    ensures |r| == |pointees|
  {
    if ptr.Some? && ptr.value < |pointees| then pointees[ptr.value := pointees[ptr.value] + 1] else pointees
  }

  function Raised(m: Mem, h: nat): Mem
    requires IsLive(m, h)
  {
    var i := m.handles[h].count;
    m.(counters := m.counters[i := m.counters[i].(n := m.counters[i].n + 1)])
  }

  /** A new counter at 1, for a new pointee or for null. */
  function Fresh(m: Mem, isNull: bool): (Mem, Handle) {
    var ptr := if isNull then None else Some(|m.pointees|);
    (m.(counters := m.counters + [Counter(1, ptr, 0)], pointees := if isNull then m.pointees else m.pointees + [0]),
     Live(ptr, |m.counters|))
  }

  function Next(m: Mem, op: Op): Mem
    requires Enabled(m, op)
  {
    match op
    case Construct(isNull) =>
      var (f, x) := Fresh(m, isNull);
      f.(handles := m.handles + [x])
    case Copy(g) => Raised(m, g).(handles := m.handles + [m.handles[g]])
    case Assign(h, g) =>
      if m.handles[h].ptr == m.handles[g].ptr then m
      else Dropped(Raised(m, g), h).(handles := m.handles[h := m.handles[g]])
    case Unique(h) =>
      if m.counters[m.handles[h].count].n == 1 then m
      else
        var c := m.counters[m.handles[h].count];
        var lowered := m.(counters := m.counters[m.handles[h].count := c.(n := if c.n > 0 then c.n - 1 else 0)]);
        var (f, x) := Fresh(lowered, m.handles[h].ptr.None?);
        f.(handles := m.handles[h := x])
    case Destroy(h) => Dropped(m, h).(handles := m.handles[h := Gone])
  }

  // ---------------------------------------------------------------- the object

  /** The operations as they update memory in place. */
  class Memory {
    var handles: seq<Handle>
    var counters: seq<Counter>
    var pointees: seq<nat>

    function View(): Mem
      reads this
    {
      Mem(handles, counters, pointees)
    }

    constructor ()
      ensures View() == Mem([], [], [])
    {
      handles, counters, pointees := [], [], [];
    }

    method NewCounter(isNull: bool) returns (x: Handle)
      modifies this
      ensures (View(), x) == Fresh(old(View()), isNull)
    {
      var ptr := None;
      if !isNull {
        ptr := Some(|pointees|);
        pointees := pointees + [0];
      }
      x := Live(ptr, |counters|);
      counters := counters + [Counter(1, ptr, 0)];
    }

    method Construct(isNull: bool)
      modifies this
      ensures View() == Next(old(View()), Op.Construct(isNull))
    {
      var x := NewCounter(isNull);
      handles := handles + [x];
    }

    method Copy(g: nat)
      requires IsLive(View(), g)
      modifies this
      ensures View() == Next(old(View()), Op.Copy(g))
    {
      var i := handles[g].count;
      counters := counters[i := counters[i].(n := counters[i].n + 1)];
      handles := handles + [handles[g]];
    }

    /** Lowers the counter, and deletes pointee and counter when it comes to zero. */
    method Drop(h: nat)
      requires IsLive(View(), h)
      modifies this
      ensures View() == Dropped(old(View()), h)
    {
      var i := handles[h].count;
      var c := counters[i];
      counters := counters[i := c.(n := if c.n > 0 then c.n - 1 else 0)];
      if counters[i].n == 0 {
        pointees := Deleted(pointees, handles[h].ptr);
        counters := counters[i := counters[i].(deleted := c.deleted + 1)];
      }
    }

    method Assign(h: nat, g: nat)
      requires IsLive(View(), h) && IsLive(View(), g)
      modifies this
      ensures View() == Next(old(View()), Op.Assign(h, g))
    {
      if handles[h].ptr == handles[g].ptr { return; }
      var i := handles[g].count;
      counters := counters[i := counters[i].(n := counters[i].n + 1)];
      Drop(h);
      handles := handles[h := handles[g]];
    }

    method Unique(h: nat)
      requires IsLive(View(), h)
      modifies this
      ensures View() == Next(old(View()), Op.Unique(h))
    {
      var i := handles[h].count;
      var c := counters[i];
      if c.n == 1 { return; }
      counters := counters[i := c.(n := if c.n > 0 then c.n - 1 else 0)];
      var x := NewCounter(handles[h].ptr.None?);
      handles := handles[h := x];
    }

    method Destroy(h: nat)
      requires IsLive(View(), h)
      modifies this
      ensures View() == Next(old(View()), Op.Destroy(h))
    {
      Drop(h);
      handles := handles[h := Gone];
    }
  }

  // ---------------------------------------------------------------- invariant

  /** How many live handles share counter `c`. */
  function Sharing(hs: seq<Handle>, c: nat): nat {
    if hs == [] then 0
    else Sharing(hs[..|hs| - 1], c) + (if hs[|hs| - 1].Live? && hs[|hs| - 1].count == c then 1 else 0)
  }

  predicate Uses(x: Handle, c: nat) { x.Live? && x.count == c }

  lemma {:induction false} SharingUpdate(hs: seq<Handle>, h: nat, x: Handle, c: nat)
    requires h < |hs|
    ensures Sharing(hs[h := x], c) + (if Uses(hs[h], c) then 1 else 0) == Sharing(hs, c) + (if Uses(x, c) then 1 else 0)
  {
    var n := |hs| - 1;
    if h == n {
      assert hs[h := x][..n] == hs[..n];
    } else {
      assert hs[h := x][..n] == hs[..n][h := x];
      SharingUpdate(hs[..n], h, x, c);
    }
  }

  lemma SharingAppend(hs: seq<Handle>, x: Handle, c: nat)
    ensures Sharing(hs + [x], c) == Sharing(hs, c) + (if Uses(x, c) then 1 else 0)
  {
    assert (hs + [x])[..|hs|] == hs;
  }

  lemma {:induction false} SharingPositive(hs: seq<Handle>, h: nat, c: nat)
    requires h < |hs| && Uses(hs[h], c)
    ensures Sharing(hs, c) > 0
  {
    if h < |hs| - 1 { SharingPositive(hs[..|hs| - 1], h, c); }
  }

  /** A counter equals its number of live handles, and it is deleted once when there are none. */
  ghost predicate CountsFit(m: Mem) {
    forall c :: 0 <= c < |m.counters| ==>
      m.counters[c].n == Sharing(m.handles, c) && m.counters[c].deleted == (if m.counters[c].n == 0 then 1 else 0)
  }

  /** A live handle's pointee is the one its counter was made for. */
  predicate HandlesFit(m: Mem) {
    forall h :: 0 <= h < |m.handles| && m.handles[h].Live? ==>
      m.handles[h].count < |m.counters| && m.counters[m.handles[h].count].ptr == m.handles[h].ptr
  }

  ghost predicate Owns(m: Mem, c: nat, o: nat) { c < |m.counters| && m.counters[c].ptr == Some(o) }

  ghost predicate Owned(m: Mem, o: nat) { exists c :: Owns(m, c, o) }

  /** Every pointee has exactly one counter and is deleted with it. */
  ghost predicate PointeesFit(m: Mem) {
    && (forall c :: 0 <= c < |m.counters| && m.counters[c].ptr.Some? ==>
          m.counters[c].ptr.value < |m.pointees| && m.pointees[m.counters[c].ptr.value] == m.counters[c].deleted)
    && (forall c, d :: 0 <= c < d < |m.counters| && m.counters[c].ptr.Some? ==> m.counters[c].ptr != m.counters[d].ptr)
    && (forall o :: 0 <= o < |m.pointees| ==> Owned(m, o))
  }

  ghost predicate Inv(m: Mem) { CountsFit(m) && HandlesFit(m) && PointeesFit(m) }

  /** A live handle's counter is positive and not deleted. */
  lemma LiveCounts(m: Mem, h: nat)
    requires CountsFit(m) && IsLive(m, h)
    ensures m.counters[m.handles[h].count].n > 0 && m.counters[m.handles[h].count].deleted == 0
  {
    SharingPositive(m.handles, h, m.handles[h].count);
  }

  lemma CountsAdded(m: Mem, op: Op)
    requires CountsFit(m) && HandlesFit(m) && Enabled(m, op) && (op.Construct? || op.Copy?)
    ensures CountsFit(Next(m, op))
  {
    var n := Next(m, op);
    var x := n.handles[|m.handles|];
    if op.Copy? { LiveCounts(m, op.from); }
    NoneShares(m.handles, |m.counters|);
    forall c ensures Sharing(n.handles, c) == Sharing(m.handles, c) + (if Uses(x, c) then 1 else 0) {
      SharingAppend(m.handles, x, c);
    }
    hide HandlesFit, Sharing;
  }

  lemma CountsMoved(m: Mem, h: nat, g: nat)
    requires CountsFit(m) && HandlesFit(m) && IsLive(m, h) && IsLive(m, g)
    ensures CountsFit(Next(m, Assign(h, g)))
  {
    LiveCounts(m, g);
    LiveCounts(m, h);
    forall c { SharingUpdate(m.handles, h, m.handles[g], c); }
    hide Sharing;
  }

  lemma CountsParted(m: Mem, h: nat)
    requires CountsFit(m) && HandlesFit(m) && IsLive(m, h)
    ensures CountsFit(Next(m, Unique(h)))
  {
    LiveCounts(m, h);
    var n := Next(m, Unique(h));
    NoneShares(m.handles, |m.counters|);
    forall c { SharingUpdate(m.handles, h, n.handles[h], c); }
    hide HandlesFit, Sharing;
  }

  lemma CountsLeft(m: Mem, h: nat)
    requires CountsFit(m) && IsLive(m, h)
    ensures CountsFit(Next(m, Destroy(h)))
  {
    LiveCounts(m, h);
    forall c { SharingUpdate(m.handles, h, Gone, c); }
    hide Sharing;
  }

  lemma CountsKept(m: Mem, op: Op)
    requires CountsFit(m) && HandlesFit(m) && Enabled(m, op)
    ensures CountsFit(Next(m, op))
  {
    hide CountsFit, HandlesFit, IsLive, Next;
    match op
    case Construct(_) => CountsAdded(m, op);
    case Copy(_) => CountsAdded(m, op);
    case Assign(h, g) => CountsMoved(m, h, g);
    case Unique(h) => CountsParted(m, h);
    case Destroy(h) => CountsLeft(m, h);
  }

  lemma {:induction false} NoneShares(hs: seq<Handle>, c: nat)
    requires forall h :: 0 <= h < |hs| && hs[h].Live? ==> hs[h].count < c
    ensures Sharing(hs, c) == 0
  {
    if hs != [] { NoneShares(hs[..|hs| - 1], c); }
  }

  lemma HandlesKept(m: Mem, op: Op)
    requires HandlesFit(m) && Enabled(m, op)
    ensures HandlesFit(Next(m, op))
  {
  }

  /** Old counters keep their pointees, and those are deleted together with them; a new
      counter has a new pointee or none. */
  ghost predicate Paired(m: Mem, n: Mem) {
    && |m.counters| <= |n.counters| <= |m.counters| + 1 && |m.pointees| <= |n.pointees| <= |m.pointees| + 1
    && (forall c :: 0 <= c < |m.counters| ==> n.counters[c].ptr == m.counters[c].ptr)
    && (forall c :: 0 <= c < |m.counters| && m.counters[c].ptr.Some? && m.counters[c].ptr.value < |m.pointees| ==>
          n.counters[c].deleted + m.pointees[m.counters[c].ptr.value]
          == m.counters[c].deleted + n.pointees[m.counters[c].ptr.value])
    && (|n.pointees| > |m.pointees| ==> |n.counters| > |m.counters|)
    && (|n.counters| > |m.counters| ==>
          var x := n.counters[|m.counters|];
          if |n.pointees| > |m.pointees| then
            x.ptr == Some(|m.pointees|) && x.deleted == n.pointees[|m.pointees|]
          else x.ptr == None)
  }

  lemma PairedKeeps(m: Mem, n: Mem)
    requires PointeesFit(m) && Paired(m, n)
    ensures PointeesFit(n)
  {
    forall o | 0 <= o < |n.pointees| ensures Owned(n, o) {
      if o < |m.pointees| {
        assert Owned(m, o);
        var c :| Owns(m, c, o);
        assert Owns(n, c, o);
      } else {
        assert Owns(n, |m.counters|, o);
      }
    }
  }

  lemma StepPairs(m: Mem, op: Op)
    requires CountsFit(m) && HandlesFit(m) && PointeesFit(m) && Enabled(m, op) && !op.Assign?
    ensures Paired(m, Next(m, op))
  {
    if op.Unique? || op.Destroy? { LiveCounts(m, op.h); }
    if op.Copy? { LiveCounts(m, op.from); }
    hide CountsFit, Owned;
  }

  lemma AssignPairs(m: Mem, h: nat, g: nat)
    requires CountsFit(m) && HandlesFit(m) && PointeesFit(m) && IsLive(m, h) && IsLive(m, g)
    ensures Paired(m, Next(m, Assign(h, g)))
  {
    LiveCounts(m, h);
    LiveCounts(m, g);
    hide CountsFit, Owned;
  }

  lemma PointeesKept(m: Mem, op: Op)
    requires Inv(m) && Enabled(m, op)
    ensures PointeesFit(Next(m, op))
  {
    if op.Assign? { AssignPairs(m, op.to, op.from); } else { StepPairs(m, op); }
    hide CountsFit, HandlesFit, PointeesFit, Enabled, Next, Paired;
    PairedKeeps(m, Next(m, op));
  }

  lemma StepKeepsInv(m: Mem, op: Op)
    requires Inv(m) && Enabled(m, op)
    ensures Inv(Next(m, op))
  {
    hide CountsFit, HandlesFit, PointeesFit, Next, Enabled;
    CountsKept(m, op);
    HandlesKept(m, op);
    PointeesKept(m, op);
  }

  // ---------------------------------------------------------------- every run

  function Run(ops: seq<Op>): Option<Mem> {
    if ops == [] then Some(Mem([], [], []))
    else
      match Run(ops[..|ops| - 1])
      case None => None
      case Some(m) => if Enabled(m, ops[|ops| - 1]) then Some(Next(m, ops[|ops| - 1])) else None
  }

  lemma {:induction false} RunKeepsInv(ops: seq<Op>)
    requires Run(ops).Some?
    ensures Inv(Run(ops).value)
  {
    hide Inv, Next, Enabled;
    if ops == [] {
      assert Inv(Mem([], [], [])) by { NothingFits(); }
    } else {
      RunKeepsInv(ops[..|ops| - 1]);
      StepKeepsInv(Run(ops[..|ops| - 1]).value, ops[|ops| - 1]);
    }
  }

  lemma NothingFits()
    ensures Inv(Mem([], [], []))
  {
  }

  /** After any operations, a counter is the number of live handles that share it; it has
      been deleted exactly when there are none, and then once. */
  lemma CountsLiveHandles(ops: seq<Op>, c: nat)
    requires Run(ops).Some? && c < |Run(ops).value.counters|
    ensures var m := Run(ops).value;
            && m.counters[c].n == Sharing(m.handles, c)
            && m.counters[c].deleted == if Sharing(m.handles, c) == 0 then 1 else 0
  {
    RunKeepsInv(ops);
    hide Run;
  }

  ghost predicate Reached(m: Mem, o: nat) {
    exists h :: 0 <= h < |m.handles| && m.handles[h].Live? && m.handles[h].ptr == Some(o)
  }

  /** After any operations, a pointee has been deleted exactly when no live handle points to
      it, and then once. */
  lemma DeletedOnce(ops: seq<Op>, o: nat)
    requires Run(ops).Some? && o < |Run(ops).value.pointees|
    ensures var m := Run(ops).value;
            m.pointees[o] == if Reached(m, o) then 0 else 1
  {
    RunKeepsInv(ops);
    var m := Run(ops).value;
    hide Run;
    assert Owned(m, o);
    var c :| Owns(m, c, o);
    SharesIffReaches(m, c, o);
  }

  lemma SharesIffReaches(m: Mem, c: nat, o: nat)
    requires Inv(m) && Owns(m, c, o)
    ensures Reached(m, o) <==> Sharing(m.handles, c) > 0
  {
    if Reached(m, o) {
      var h :| 0 <= h < |m.handles| && m.handles[h].Live? && m.handles[h].ptr == Some(o);
      assert m.handles[h].count == c;
      SharingPositive(m.handles, h, c);
    }
    if Sharing(m.handles, c) > 0 {
      var h := Sharer(m.handles, c);
      assert m.handles[h].ptr == Some(o);
    }
  }

  lemma {:induction false} Sharer(hs: seq<Handle>, c: nat) returns (h: nat)
    requires Sharing(hs, c) > 0
    ensures h < |hs| && Uses(hs[h], c)
  {
    if Uses(hs[|hs| - 1], c) {
      h := |hs| - 1;
    } else {
      h := Sharer(hs[..|hs| - 1], c);
    }
  }

  /** No operation touches deleted memory: a live handle's counter is positive and not
      deleted, and neither is its pointee. */
  lemma LiveHandlesAreSafe(ops: seq<Op>, h: nat)
    requires Run(ops).Some? && h < |Run(ops).value.handles| && Run(ops).value.handles[h].Live?
    ensures var m := Run(ops).value;
            && IsLive(m, h) && m.counters[m.handles[h].count].n > 0 && m.counters[m.handles[h].count].deleted == 0
            && (m.handles[h].ptr.Some? ==> m.pointees[m.handles[h].ptr.value] == 0)
  {
    RunKeepsInv(ops);
    var m := Run(ops).value;
    hide Run;
    assert IsLive(m, h);
    LiveCounts(m, h);
    hide CountsFit;
  }

  /** The handle that an operation changes or makes. */
  function Subject(m: Mem, op: Op): nat {
    match op
    case Construct(_) => |m.handles|
    case Copy(_) => |m.handles|
    case Assign(h, _) => h
    case Unique(h) => h
    case Destroy(h) => h
  }

  predicate Alone(m: Mem, h: nat) {
    h < |m.handles| && m.handles[h].Live? && Sharing(m.handles, m.handles[h].count) == 1
  }

  /** A pointee that no handle has pointed to before, or null. */
  predicate NewPointee(m: Mem, ptr: Option<nat>, isNull: bool) {
    if isNull then ptr == None else ptr.Some? && ptr.value >= |m.pointees|
  }

  /** What an operation is for: it leaves the other handles as they are; a new handle is
      alone, a copy shares, an assigned handle points where the other does, a unique one
      shares with nobody and keeps its pointee only if it was alone. */
  predicate Means(m: Mem, op: Op, n: Mem, h: nat) {
    && h < |n.handles|
    && (forall i :: 0 <= i < |m.handles| && i != h ==> i < |n.handles| && n.handles[i] == m.handles[i])
    && match op
       case Construct(isNull) => Alone(n, h) && NewPointee(m, n.handles[h].ptr, isNull)
       case Copy(g) => g < |m.handles| && n.handles[h] == m.handles[g]
       case Assign(_, g) => g < |m.handles| && n.handles[h].Live? && SamePointee(n.handles[h], m.handles[g])
       case Unique(_) =>
         && Alone(n, h) && h < |m.handles| && m.handles[h].Live?
         && (if Alone(m, h) then n == m else NewPointee(m, n.handles[h].ptr, m.handles[h].ptr.None?))
       case Destroy(_) => n.handles[h] == Gone
  }

  /** Null pointees need not share a counter, all others do. */
  predicate SamePointee(x: Handle, y: Handle) {
    y.Live? && x.Live? && x.ptr == y.ptr && (y.ptr.Some? ==> x == y)
  }

  /** Every operation does that, after any others. */
  lemma OperationsMean(ops: seq<Op>, op: Op)
    requires Run(ops).Some? && Enabled(Run(ops).value, op)
    ensures var m := Run(ops).value; Means(m, op, Next(m, op), Subject(m, op))
  {
    RunKeepsInv(ops);
    var m := Run(ops).value;
    hide Run;
    OperationMeans(m, op, Next(m, op), Subject(m, op));
  }

  lemma OperationMeans(m: Mem, op: Op, n: Mem, h: nat)
    requires Inv(m) && Enabled(m, op) && n == Next(m, op) && h == Subject(m, op)
    ensures Means(m, op, n, h)
  {
    hide Sharing;
    match op
    case Construct(_) =>
      NoneShares(m.handles, |m.counters|);
      SharingAppend(m.handles, n.handles[h], |m.counters|);
    case Copy(_) =>
    case Assign(_, g) =>
      if m.handles[h].ptr == m.handles[g].ptr && m.handles[g].ptr.Some? { SamePointeeSameCount(m, h, g); }
    case Unique(_) =>
      LiveCounts(m, h);
      NoneShares(m.handles, |m.counters|);
      SharingUpdate(m.handles, h, n.handles[h], |m.counters|);
    case Destroy(_) =>
  }

  /** Handles of one pointee share one counter. */
  lemma SamePointeeSameCount(m: Mem, h: nat, g: nat)
    requires HandlesFit(m) && PointeesFit(m) && IsLive(m, h) && IsLive(m, g)
    requires m.handles[h].ptr == m.handles[g].ptr && m.handles[g].ptr.Some?
    ensures m.handles[h] == m.handles[g]
  {
    hide Owned;
  }
}
