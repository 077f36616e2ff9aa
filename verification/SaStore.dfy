/** The security association database: `CsadbEntry`, `Csadb`, and the C interface that
    encrypts and decrypts with an entry. */
module SaStore {
  import opened Bytes
  import opened Crypto
  import opened AesCtr

  /** The immutable part of an entry. */
  datatype Sa = Sa(ip: int, lHit: Str, rHit: Str, lEK: Block, rEK: Block)

  class CsadbEntry {
    const sa: Sa
    const encr: CAesCtr
    const decr: CAesCtr

    /** Both ciphers are at the start of their streams, keyed as the association says. */
    ghost predicate Starts(c: Suite)
      reads encr, decr
    {
      && encr != decr && encr.Valid() && decr.Valid() && encr.pos == decr.pos == 0
      && encr.c == decr.c == c
      && encr.key == sa.lEK && encr.nonce == sa.rEK[..12]
      && decr.key == sa.rEK && decr.nonce == sa.lEK[..12]
    }

    /** The sending cipher is keyed with the local key and starts from the remote one; the
        receiving cipher the other way round. */
    constructor (c: Suite, lHit: Str, rHit: Str, lEK: Block, rEK: Block, ip: int)
      ensures sa == Sa(ip, lHit, rHit, lEK, rEK)
      ensures fresh(encr) && fresh(decr) && Starts(c)
    {
      sa := Sa(ip, lHit, rHit, lEK, rEK);
      var e := new CAesCtr(c, lEK, rEK);
      var d := new CAesCtr(c, rEK, lEK);
      encr, decr := e, d;
    }
  }

  /** `HIPDEX_Encrypt`: without an entry nothing is written. */
  method EncryptWith(entry: CsadbEntry?, input: Str) returns (out: Option<Str>)
    requires entry != null ==> entry.encr.Valid()
    modifies if entry == null then {} else {entry.encr}
    ensures entry == null ==> out == None
    ensures entry != null ==>
              && entry.encr.Valid() && entry.encr.pos == old(entry.encr.pos) + |input|
              && out == Some(Ctr(entry.encr.c, entry.encr.key, entry.encr.nonce, old(entry.encr.pos), input))
  {
    if entry == null { return None; }
    var cipher := entry.encr.Encrypt(input);
    out := Some(cipher);
  }

  /** `HIPDEX_Decrypt`: counter mode decrypts by encrypting. */
  method DecryptWith(entry: CsadbEntry?, input: Str) returns (out: Option<Str>)
    requires entry != null ==> entry.decr.Valid()
    modifies if entry == null then {} else {entry.decr}
    ensures entry == null ==> out == None
    ensures entry != null ==>
              && entry.decr.Valid() && entry.decr.pos == old(entry.decr.pos) + |input|
              && out == Some(Ctr(entry.decr.c, entry.decr.key, entry.decr.nonce, old(entry.decr.pos), input))
  {
    if entry == null { return None; }
    var plain := entry.decr.Encrypt(input);
    out := Some(plain);
  }

  // ---------------------------------------------------------------- the vector

  /** The entries in vector order, each named by its address. */
  type Listing<!T> = seq<(int, T)>

  function Erase<T>(db: Listing<T>, ip: int): Listing<T> {
    if db == [] then []
    else if db[0].0 == ip then db[1..]
    else [db[0]] + Erase(db[1..], ip)
  }

  function Store<T>(db: Listing<T>, ip: int, x: T): Listing<T> { Erase(db, ip) + [(ip, x)] }

  function Find<T>(db: Listing<T>, ip: int): Option<T> {
    if db == [] then None else if db[0].0 == ip then Some(db[0].1) else Find(db[1..], ip)
  }

  predicate OnePerAddress<T>(db: Listing<T>) {
    forall i, j :: 0 <= i < j < |db| ==> db[i].0 != db[j].0
  }

  class Csadb {
    var db: seq<CsadbEntry>

    /** The vector as a listing. */
    function View(): (v: Listing<CsadbEntry>)
      reads this
      ensures |v| == |db| && forall i :: 0 <= i < |db| ==> v[i] == (db[i].sa.ip, db[i])
    {
      Listed(db)
    }

    constructor ()
      ensures View() == []
    {
      db := [];
    }

    /** Deletes the first entry for the address, if any, and appends a new one. */
    method StoreSA(c: Suite, lHit: Str, rHit: Str, lEK: Block, rEK: Block, ip: int)
      returns (entry: CsadbEntry)
      modifies this
      ensures fresh(entry) && entry.sa == Sa(ip, lHit, rHit, lEK, rEK)
      ensures fresh(entry.encr) && fresh(entry.decr) && entry.Starts(c)
      ensures View() == Store(old(View()), ip, entry)
    {
      EraseFirst(ip);
      entry := new CsadbEntry(c, lHit, rHit, lEK, rEK, ip);
      ListedAppend(db, entry);
      db := db + [entry];
    }

    method FindSA(ip: int) returns (entry: CsadbEntry?)
      ensures match Find(View(), ip) case None => entry == null case Some(e) => entry == e
    {
      for i := 0 to |db|
        invariant Find(View(), ip) == Find(View()[i..], ip)
      {
        if db[i].sa.ip == ip { return db[i]; }
        assert View()[i..][1..] == View()[i + 1..];
      }
      entry := null;
    }

    method RemoveSA(ip: int)
      modifies this
      ensures View() == Erase(old(View()), ip)
    {
      EraseFirst(ip);
    }

    /** The search loop shared by storing and removing. */
    method EraseFirst(ip: int)
      modifies this
      ensures View() == Erase(old(View()), ip)
    {
      ghost var v := View();
      assert v[..0] + Erase(v[0..], ip) == Erase(v, ip) by { assert v[0..] == v; }
      hide Listed, Erase;
      for i := 0 to |db|
        invariant db == old(db) && v == View()
        invariant Erase(v, ip) == v[..i] + Erase(v[i..], ip)
      {
        EraseStep(v, ip, i);
        if db[i].sa.ip == ip {
          db := db[..i] + db[i + 1..];
          ListedErase(old(db), i);
          return;
        }
      }
      EraseEnd(v, ip);
    }
  }

  /** `entry` is what a search for the address comes back with. */
  ghost predicate Finds(sadb: Csadb, ip: int, entry: CsadbEntry?)
    reads sadb
  {
    match Find(sadb.View(), ip) case None => entry == null case Some(e) => entry == e
  }

  function Listed(db: seq<CsadbEntry>): (v: Listing<CsadbEntry>)
    ensures |v| == |db| && forall i :: 0 <= i < |db| ==> v[i] == (db[i].sa.ip, db[i])
  {
    seq(|db|, i requires 0 <= i < |db| => (db[i].sa.ip, db[i]))
  }

  lemma EraseStep<T>(v: Listing<T>, ip: int, i: nat)
    requires i < |v|
    ensures v[i].0 == ip ==> v[..i] + Erase(v[i..], ip) == v[..i] + v[i + 1..]
    ensures v[i].0 != ip ==> v[..i] + Erase(v[i..], ip) == v[..i + 1] + Erase(v[i + 1..], ip)
  {
    assert v[i..][0] == v[i] && v[i..][1..] == v[i + 1..];
    if v[i].0 != ip {
      assert v[..i + 1] == v[..i] + [v[i]];
      assert (v[..i] + [v[i]]) + Erase(v[i + 1..], ip) == v[..i] + ([v[i]] + Erase(v[i + 1..], ip));
    }
  }

  lemma EraseEnd<T>(v: Listing<T>, ip: int)
    ensures v[..|v|] + Erase(v[|v|..], ip) == v
  {
    assert v[|v|..] == [];
  }

  lemma ListedAppend(db: seq<CsadbEntry>, e: CsadbEntry)
    ensures Listed(db + [e]) == Listed(db) + [(e.sa.ip, e)]
  {
  }

  lemma ListedErase(db: seq<CsadbEntry>, i: nat)
    requires i < |db|
    ensures Listed(db[..i] + db[i + 1..]) == Listed(db)[..i] + Listed(db)[i + 1..]
  {
  }

  // ---------------------------------------------------------------- laws

  datatype Op<+T> = StoreOp(ip: int, entry: T) | RemoveOp(ip: int)

  function Apply<T>(db: Listing<T>, op: Op<T>): Listing<T> {
    match op
    case StoreOp(ip, x) => Store(db, ip, x)
    case RemoveOp(ip) => Erase(db, ip)
  }

  function Run<T>(ops: seq<Op<T>>): Listing<T> {
    if ops == [] then [] else Apply(Run(ops[..|ops| - 1]), ops[|ops| - 1])
  }

  /** The entry stored for `ip` by the last operation on that address, if it was a store. */
  function LastStored<T>(ops: seq<Op<T>>, ip: int): Option<T> {
    if ops == [] then None
    else
      var op := ops[|ops| - 1];
      if op.ip != ip then LastStored(ops[..|ops| - 1], ip)
      else if op.StoreOp? then Some(op.entry)
      else None
  }

  lemma {:induction false} EraseLaws<T>(db: Listing<T>, ip: int)
    requires OnePerAddress(db)
    ensures OnePerAddress(Erase(db, ip))
    ensures forall k :: 0 <= k < |Erase(db, ip)| ==> Erase(db, ip)[k].0 != ip && Erase(db, ip)[k] in db
    ensures forall other :: Find(Erase(db, ip), other) == if other == ip then None else Find(db, other)
  {
    if db != [] {
      var rest := db[1..];
      EraseLaws(rest, ip);
      if db[0].0 == ip {
        FindNone(rest, ip);
      } else {
        var e := Erase(rest, ip);
        assert ([db[0]] + e)[1..] == e;
      }
    }
  }

  lemma {:induction false} FindNone<T>(db: Listing<T>, ip: int)
    ensures Find(db, ip) == None <==> forall k :: 0 <= k < |db| ==> db[k].0 != ip
  {
    if db != [] { FindNone(db[1..], ip); }
  }

  lemma {:induction false} FindAppend<T>(db: Listing<T>, ip: int, x: T, other: int)
    ensures Find(db + [(ip, x)], other) ==
            if Find(db, other).Some? then Find(db, other) else if other == ip then Some(x) else None
  {
    if db == [] {
      assert (db + [(ip, x)])[1..] == [];
    } else {
      assert (db + [(ip, x)])[1..] == db[1..] + [(ip, x)];
      FindAppend(db[1..], ip, x, other);
    }
  }

  /** After any sequence of stores and removals there is at most one entry for an address,
      and a search returns the entry last stored for it and not removed since. */
  lemma {:induction false} StoreRefinesMap<T>(ops: seq<Op<T>>, ip: int)
    ensures OnePerAddress(Run(ops))
    ensures Find(Run(ops), ip) == LastStored(ops, ip)
  {
    if ops != [] {
      var front, op := ops[..|ops| - 1], ops[|ops| - 1];
      StoreRefinesMap(front, ip);
      EraseLaws(Run(front), op.ip);
      if op.StoreOp? {
        FindAppend(Erase(Run(front), op.ip), op.ip, op.entry, ip);
      }
    }
  }

  // ---------------------------------------------------------------- crosswise

  /** What one end calls local is what the other calls remote. */
  predicate Crosswise(a: Sa, b: Sa) { a.lEK == b.rEK && a.rEK == b.lEK }

  /** The cipher streams of two fresh entries: each end's sending keystream is the other's
      receiving keystream, when their keys are crosswise. */
  lemma CrosswiseStreams(c: Suite, a: Sa, b: Sa, p: nat, s: Str)
    requires Crosswise(a, b)
    ensures Ctr(c, b.rEK, b.lEK[..12], p, Ctr(c, a.lEK, a.rEK[..12], p, s)) == s
    ensures Ctr(c, a.rEK, a.lEK[..12], p, Ctr(c, b.lEK, b.rEK[..12], p, s)) == s
  {
    CtrInvolution(c, a.lEK, a.rEK[..12], p, s);
    CtrInvolution(c, b.lEK, b.rEK[..12], p, s);
  }
}
