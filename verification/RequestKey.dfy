/** The string keys of the request table, and the table behind them. */
module RequestKey {
  import opened Bytes

  type Int32 = x: int | -0x8000_0000 <= x < 0x8000_0000

  /** C division and remainder by ten, which truncate toward zero. */
  function Quot(m: int): int { if m >= 0 then m / 10 else -((-m) / 10) }
  function Rem(m: int): int { if m >= 0 then m % 10 else -((-m) % 10) }

  function Abs(m: int): nat { if m >= 0 then m else -m }

  lemma QuotShrinks(m: int)
    ensures m >= 0 ==> 0 <= Quot(m) <= m
    ensures m < 0 ==> m <= Quot(m) <= 0
    ensures -9 <= Rem(m) <= 9 && (m != 0 ==> Abs(Quot(m)) < Abs(m))
  {
  }

  const UNDERSCORE: Byte := 95
  const ZERO := 48

  predicate NulFree(s: Str) { forall i :: 0 <= i < |s| ==> s[i] != 0 }

  /** The loop's digits: none for 0, and for a negative number characters below '0'. */
  function Digits(m: int): (d: Str)
    ensures forall i :: 0 <= i < |d| ==> 39 <= d[i] <= 57
    decreases Abs(m)
  {
    if m == 0 then [] else Digits(Quot(m)) + [ZERO + Rem(m)]
  }

  function Key(nodeid: Str, msgid: int): Str { nodeid + [UNDERSCORE] + Digits(msgid) }

  method GetRequestKey(nodeid: Str, msgid: Int32) returns (key: Str)
    ensures key == Key(nodeid, msgid)
  {
    key := nodeid + [UNDERSCORE];
    var gnum: Str := [];
    var m: Int32 := msgid;
    while m != 0
      invariant Digits(msgid) == Digits(m) + gnum
      decreases Abs(m)
    {
      QuotShrinks(m);
      assert Digits(m) == Digits(Quot(m)) + [ZERO + Rem(m)];
      hide Quot, Rem, Digits;
      var c: Byte := Rem(m) + ZERO;
      gnum := [c] + gnum;
      m := Quot(m);
    }
    key := key + gnum;
  }

  /** The number that a string of digits stands for. */
  function Number(d: Str): int {
    if d == [] then 0 else 10 * Number(d[..|d| - 1]) + (d[|d| - 1] as int - ZERO)
  }

  lemma {:induction false} DigitsNumber(m: int)
    ensures Number(Digits(m)) == m
    decreases Abs(m)
  {
    if m != 0 {
      var d := Digits(m);
      assert d[..|d| - 1] == Digits(Quot(m));
      DigitsNumber(Quot(m));
    }
  }

  /** Keys are injective over all nodeids and all message numbers, of either sign. */
  lemma KeyInjective(n: Str, m: int, n': Str, m': int)
    ensures Key(n, m) == Key(n', m') <==> n == n' && m == m'
  {
    if Key(n, m) == Key(n', m') {
      SplitAtLast(n, Digits(m), n', Digits(m'));
      DigitsNumber(m);
      DigitsNumber(m');
    }
  }

  lemma SplitAtLast(n: Str, d: Str, n': Str, d': Str)
    requires n + [UNDERSCORE] + d == n' + [UNDERSCORE] + d'
    requires UNDERSCORE !in d && UNDERSCORE !in d'
    ensures n == n' && d == d'
  {
    var k := n + [UNDERSCORE] + d;
    assert k[|n|] == UNDERSCORE && (n' + [UNDERSCORE] + d')[|n'|] == UNDERSCORE;
    assert forall i :: |n| < i < |k| ==> k[i] == d[i - |n| - 1];
    assert forall i :: |n'| < i < |k| ==> k[i] == d'[i - |n'| - 1];
    assert k[..|n|] == n && k[|n| + 1..] == d;
    assert (n' + [UNDERSCORE] + d')[..|n'|] == n' && (n' + [UNDERSCORE] + d')[|n'| + 1..] == d';
  }

  /** A key is a C string: the table compares it up to its end. */
  lemma KeyNulFree(n: Str, m: int)
    ensures NulFree(Key(n, m)) <==> NulFree(n)
  {
    var k := Key(n, m);
    assert forall i :: 0 <= i < |n| ==> k[i] == n[i];
    assert k[|n|] == UNDERSCORE;
    assert forall i :: |n| < i < |k| ==> k[i] == Digits(m)[i - |n| - 1];
  }

  type Pair = (Str, Int32)

  function KeyOf(p: Pair): Str { Key(p.0, p.1) }

  lemma KeyOfInjective(p: Pair, q: Pair)
    ensures KeyOf(p) == KeyOf(q) <==> p == q
  {
    KeyInjective(p.0, p.1, q.0, q.1);
  }

  /** A string-keyed table and the same table keyed by nodeid and message number. */
  ghost predicate Matches<W>(requests: map<Str, W>, entries: map<Pair, W>) {
    && (forall p :: p in entries ==> KeyOf(p) in requests && requests[KeyOf(p)] == entries[p])
    && (forall k :: k in requests ==> exists p :: p in entries && KeyOf(p) == k)
  }

  lemma Present<W>(requests: map<Str, W>, entries: map<Pair, W>, p: Pair)
    requires Matches(requests, entries)
    ensures KeyOf(p) in requests <==> p in entries
    ensures p in entries ==> requests[KeyOf(p)] == entries[p]
  {
    if KeyOf(p) in requests {
      var q :| q in entries && KeyOf(q) == KeyOf(p);
      KeyOfInjective(p, q);
    }
  }

  lemma OtherKeys(p: Pair)
    ensures forall q: Pair :: q != p ==> KeyOf(q) != KeyOf(p)
  {
    forall q: Pair | q != p
      ensures KeyOf(q) != KeyOf(p)
    {
      KeyOfInjective(p, q);
    }
  }

  lemma MatchesAdded<W>(requests: map<Str, W>, entries: map<Pair, W>, p: Pair, w: W)
    requires Matches(requests, entries)
    ensures Matches(requests[KeyOf(p) := w], entries[p := w])
  {
    OtherKeys(p);
    hide KeyOf;
    var now := requests[KeyOf(p) := w];
    forall k | k in now
      ensures exists q :: q in entries[p := w] && KeyOf(q) == k
    {
      if k == KeyOf(p) {
        assert p in entries[p := w];
      } else {
        var q :| q in entries && KeyOf(q) == k;
        assert q in entries[p := w];
      }
    }
  }

  lemma MatchesRemoved<W>(requests: map<Str, W>, entries: map<Pair, W>, p: Pair)
    requires Matches(requests, entries)
    ensures Matches(requests - {KeyOf(p)}, entries - {p})
  {
    OtherKeys(p);
    hide KeyOf;
    forall k | k in requests - {KeyOf(p)}
      ensures exists q :: q in entries - {p} && KeyOf(q) == k
    {
      var q :| q in entries && KeyOf(q) == k;
      assert q in entries - {p};
    }
  }

  /** The listener's table of requests, keyed by strings. */
  class RequestTable<W(==)> {
    var requests: map<Str, W>
    /** The same table, keyed by nodeid and message number. */
    ghost var entries: map<Pair, W>

    ghost predicate Valid()
      reads this
    {
      Matches(requests, entries)
    }

    constructor ()
      ensures Valid() && entries == map[]
    {
      requests, entries := map[], map[];
    }

    /** `listener_add_request`: a key that is taken is left alone. */
    method Add(nodeid: Str, msgid: Int32, waiter: W) returns (ok: bool)
      requires Valid()
      modifies this
      ensures Valid()
      ensures ok <==> (nodeid, msgid) !in old(entries)
      ensures entries == if ok then old(entries)[(nodeid, msgid) := waiter] else old(entries)
    {
      var key := GetRequestKey(nodeid, msgid);
      ghost var p: Pair := (nodeid, msgid);
      assert key == KeyOf(p);
      hide KeyOf, Matches;
      Present(requests, entries, p);
      if key in requests { return false; }
      MatchesAdded(requests, entries, p, waiter);
      requests := requests[key := waiter];
      entries := entries[p := waiter];
      ok := true;
    }

    /** `listener_get_request`. */
    method Get(nodeid: Str, msgid: Int32) returns (waiter: Option<W>)
      requires Valid()
      ensures waiter == if (nodeid, msgid) in entries then Some(entries[(nodeid, msgid)]) else None
    {
      var key := GetRequestKey(nodeid, msgid);
      assert key == KeyOf((nodeid, msgid));
      hide KeyOf, Matches;
      Present(requests, entries, (nodeid, msgid));
      waiter := if key in requests then Some(requests[key]) else None;
    }

    /** `listener_remove_request`: the entry goes, and with it its waiter is destroyed. */
    method Remove(nodeid: Str, msgid: Int32) returns (ok: bool)
      requires Valid()
      modifies this
      ensures Valid()
      ensures ok <==> (nodeid, msgid) in old(entries)
      ensures entries == old(entries) - {(nodeid, msgid)}
    {
      var key := GetRequestKey(nodeid, msgid);
      ghost var p: Pair := (nodeid, msgid);
      assert key == KeyOf(p);
      hide KeyOf, Matches;
      Present(requests, entries, p);
      if key !in requests { return false; }
      MatchesRemoved(requests, entries, p);
      requests := requests - {key};
      entries := entries - {p};
      ok := true;
    }
  }
}
