/** The byte channel of the SIB daemon: `client_send_message`, `client_receive_message`, and
    the loop of a client's thread, over counter-mode streams. */
module Channel {
  import opened Bytes
  import opened Crypto
  import opened AesCtr
  import opened SaStore
  import opened Framing

  const RECVBUFSIZE := 128

  // ---------------------------------------------------------------- sending

  /** One round of the send loop: the socket reports an error, or takes up to `n` bytes. */
  datatype Round = Refuses | Takes(n: nat)

  /** How many of `left` bytes the socket takes before an error or the end of the rounds. */
  function Taken(rounds: seq<Round>, left: nat): (n: nat)
    ensures n <= left
  {
    if left == 0 || rounds == [] || rounds[0].Refuses? then 0
    else
      var n := if rounds[0].n <= left then rounds[0].n else left;
      n + Taken(rounds[1..], left - n)
  }

  /** What the socket would take in the rounds before its first error. */
  function Capacity(rounds: seq<Round>): nat {
    if rounds == [] || rounds[0].Refuses? then 0 else rounds[0].n + Capacity(rounds[1..])
  }

  /** The loop sends as much as the socket takes before its first error, or all there is. */
  lemma {:induction false} TakenMeaning(rounds: seq<Round>, left: nat)
    ensures Taken(rounds, left) == if Capacity(rounds) <= left then Capacity(rounds) else left
  {
    if rounds != [] && rounds[0].Takes? {
      TakenMeaning(rounds[1..], left - if rounds[0].n <= left then rounds[0].n else left);
    }
  }

  /** Looks the association up and encrypts the whole message first, so the cipher moves on
      by its length even when only part goes out. The result is 0 exactly when everything
      went out, and -1 without an association or after a socket error; None: still in the
      loop after the rounds. */
  method SendMessage(sadb: Csadb, ip: int, buf: Str, rounds: seq<Round>, ghost entry: CsadbEntry?)
    returns (r: Option<int>, out: Str)
    requires Finds(sadb, ip, entry) && (entry != null ==> entry.encr.Valid())
    modifies if entry == null then {} else {entry.encr}
    ensures entry == null ==> r == Some(-1) && out == []
    ensures entry != null ==>
              && entry.encr.Valid() && entry.encr.pos == old(entry.encr.pos) + |buf|
              && |out| == Taken(rounds, |buf|)
              && out == Ctr(entry.encr.c, entry.encr.key, entry.encr.nonce, old(entry.encr.pos), buf)[..|out|]
              && (r == Some(0) <==> |out| == |buf|)
              && (r == Some(-1) <==> |out| < |buf| && Refuses in rounds)
              && (r == None <==> |out| < |buf| && Refuses !in rounds)
  {
    var found := sadb.FindSA(ip);
    if found == null { return Some(-1), []; }
    var encrypted := EncryptWith(found, buf);
    r, out := SendAll(encrypted.value, rounds);
  }

  /** The send loop. */
  method SendAll(cipher: Str, rounds: seq<Round>) returns (r: Option<int>, out: Str)
    ensures |out| == Taken(rounds, |cipher|) && out == cipher[..|out|]
    ensures r == Some(0) <==> |out| == |cipher|
    ensures r == Some(-1) <==> |out| < |cipher| && Refuses in rounds
    ensures r == None <==> |out| < |cipher| && Refuses !in rounds
  {
    var total, bytesleft, i := 0, |cipher|, 0;
    out := [];
    while total < |cipher|
      invariant total + bytesleft == |cipher| && 0 <= total <= |cipher| && i <= |rounds|
      invariant out == cipher[..total]
      invariant total + Taken(rounds[i..], bytesleft) == Taken(rounds, |cipher|)
      invariant Refuses !in rounds[..i]
      decreases |rounds| - i
    {
      if i == |rounds| { return None, out; }
      if rounds[i].Refuses? { return Some(-1), out; }
      var n := if rounds[i].n <= bytesleft then rounds[i].n else bytesleft;
      out := out + cipher[total..total + n];
      total := total + n;
      bytesleft := bytesleft - n;
      assert rounds[i..][1..] == rounds[i + 1..];
      i := i + 1;
    }
    r := Some(0);
  }

  // ---------------------------------------------------------------- receiving

  /** What `recv` comes back with: up to 128 bytes, end of stream, or an error. */
  datatype Recv = Chunk(bytes: Str) | Closed | Failed
  {
    predicate Fits() { Chunk? ==> 1 <= |bytes| <= RECVBUFSIZE }
  }

  /** The bytes of the chunks before the first end or error. */
  function Arrivals(script: seq<Recv>): Str {
    if script == [] || !script[0].Chunk? then [] else script[0].bytes + Arrivals(script[1..])
  }

  predicate AllChunks(script: seq<Recv>) { forall i :: 0 <= i < |script| ==> script[i].Chunk? }

  lemma {:induction false} ArrivalsAppend(a: seq<Recv>, b: seq<Recv>)
    requires AllChunks(a)
    ensures Arrivals(a + b) == Arrivals(a) + Arrivals(b)
  {
    if a == [] {
      assert a + b == b;
    } else {
      assert (a + b)[1..] == a[1..] + b;
      ArrivalsAppend(a[1..], b);
    }
  }

  class Client {
    const recvbuf: array<Byte>
    var len: nat
    var remaining: nat

    ghost predicate Valid()
      reads this
    {
      recvbuf.Length == RECVBUFSIZE && remaining <= len <= RECVBUFSIZE
    }

    /** Bytes received and not yet handled. */
    ghost function Leftover(): (s: Str)
      requires Valid()
      reads this, recvbuf
      ensures |s| == remaining
    {
      recvbuf[len - remaining..len]
    }

    constructor ()
      ensures Valid() && fresh(recvbuf) && Leftover() == []
    {
      recvbuf := new Byte[RECVBUFSIZE](_ => 0);
      len, remaining := 0, 0;
    }

    /** Decrypts a chunk into the buffer, when nothing in it waits to be handled. */
    method Fill(entry: CsadbEntry, bytes: Str)
      requires Valid() && remaining == 0 && entry.decr.Valid() && 1 <= |bytes| <= RECVBUFSIZE
      modifies this, recvbuf, entry.decr
      ensures Valid() && entry.decr.Valid() && entry.decr.pos == old(entry.decr.pos) + |bytes|
      ensures Leftover() == Ctr(entry.decr.c, entry.decr.key, entry.decr.nonce, old(entry.decr.pos), bytes)
    {
      var plain := DecryptWith(entry, bytes);
      forall i | 0 <= i < |plain.value| { recvbuf[i] := plain.value[i]; }
      len := |bytes|;
      remaining := |bytes|;
      assert recvbuf[..len] == plain.value;
    }

    /** Feeds what is left over, then whatever arrives, to a new message object until its
        message is complete. `r` is the result (None: blocked in `recv`), `used` the number
        of `recv` calls that came back. */
    method ReceiveMessage(p: Parser, sadb: Csadb, ip: int, script: seq<Recv>, ghost entry: CsadbEntry?)
      returns (r: Option<int>, msg: Str, used: nat)
      requires Valid() && p.Lawful() && (forall i :: 0 <= i < |script| ==> script[i].Fits())
      requires Finds(sadb, ip, entry) && (entry != null ==> entry.decr.Valid())
      modifies this, recvbuf, if entry == null then {} else {entry.decr}
      ensures Valid() && used <= |script|
      ensures entry == null ==> r == Some(-1) && used == 0 && Leftover() == old(Leftover())
      ensures entry != null ==>
                && entry.decr.Valid()
                && entry.decr.pos == old(entry.decr.pos) + |Arrivals(script[..used])|
                && Outcome(p, script, used, r, msg, Leftover(),
                     Stream(old(Leftover()), entry.decr.c, entry.decr.key, entry.decr.nonce,
                            old(entry.decr.pos), script[..used]))
    {
      hide Parser.Lawful, Ctr, CAesCtr.Valid, Arrivals, Outcome, Stream, Find, Recv.Fits, Listed;
      msg, used := [], 0;
      var found := sadb.FindSA(ip);
      if found == null { return Some(-1), msg, used; }
      r, msg, used := ReceiveFrom(p, found, script);
    }

    method ReceiveFrom(p: Parser, entry: CsadbEntry, script: seq<Recv>)
      returns (r: Option<int>, msg: Str, used: nat)
      requires Valid() && p.Lawful() && (forall i :: 0 <= i < |script| ==> script[i].Fits())
      requires entry.decr.Valid()
      modifies this, recvbuf, entry.decr
      ensures Valid() && used <= |script| && entry.decr.Valid()
      ensures entry.decr.pos == old(entry.decr.pos) + |Arrivals(script[..used])|
      ensures Outcome(p, script, used, r, msg, Leftover(),
                Stream(old(Leftover()), entry.decr.c, entry.decr.key, entry.decr.nonce,
                       old(entry.decr.pos), script[..used]))
    {
      msg, used := [], 0;
      ghost var c, key, nonce, start := entry.decr.c, entry.decr.key, entry.decr.nonce, entry.decr.pos;
      ghost var first, stream := Leftover(), Leftover();
      assert p.frame(msg) == More && msg + stream == stream;
      NothingYet(first, c, key, nonce, start, script);
      hide Parser.Lawful, Ctr, CAesCtr.Valid, Arrivals, AllChunks, Outcome, Stopped, Recv.Fits, Stream;
      while true
        invariant Valid() && used <= |script| && entry.decr.Valid()
        invariant AllChunks(script[..used]) && entry.decr.pos == start + |Arrivals(script[..used])|
        invariant stream == Stream(first, c, key, nonce, start, script[..used])
        invariant stream == msg + Leftover()
        invariant p.frame(msg) == More
        decreases |script| - used
      {
        var v;
        v, msg := ParseSection(p, msg);
        if v != More || used == |script| {
          Ends(p, script, used, v, msg, Leftover(), stream);
          return Returned(v), msg, used;
        }
        OneMore(first, c, key, nonce, start, script, used);
        used := used + 1;
        Stops(p, script, used, msg, stream);
        match script[used - 1]
        case Failed => return Some(-1), msg, used;
        case Closed => return Some(0), msg, used;
        case Chunk(bytes) =>
          FitsBuffer(script[used - 1]);
          ghost var at := entry.decr.pos;
          Fill(entry, bytes);
          Grows(first, c, key, nonce, start, script, used, bytes, at, stream, Leftover());
          stream := stream + Leftover();
      }
    }

    /** Feeds what is in the buffer to the message object, if there is anything. */
    method ParseSection(p: Parser, fed: Str) returns (v: Verdict, msg: Str)
      requires Valid() && p.Lawful() && p.frame(fed) == More
      modifies this
      ensures Valid() && v == p.frame(old(fed + Leftover()))
      ensures v.Message? ==> v.size > 0 && old(fed + Leftover()) == msg + Leftover() && |msg| == v.size
      ensures v.More? ==> Leftover() == [] && msg == old(fed + Leftover())
    {
      ghost var stream := fed + Leftover();
      msg, v := fed, More;
      if remaining != 0 {
        var index := len - remaining;
        var handled := |fed| + remaining;
        msg := fed + recvbuf[index..index + remaining];
        v := p.frame(msg);
        match v
        case Message(n) =>
          EndsInside(p, fed, msg[|fed|..]);
          assert fed + msg[|fed|..] == msg;
          remaining := handled - n;
          msg := msg[..n];
          assert Leftover() == stream[n..];
        case More =>
          len, remaining := 0, 0;
        case Bad =>
      } else {
        assert stream == fed;
      }
    }
  }

  /** A message that was not complete before a section ends inside it. */
  lemma EndsInside(p: Parser, fed: Str, section: Str)
    requires p.Lawful() && p.frame(fed) == More && p.frame(fed + section).Message?
    ensures |fed| < p.frame(fed + section).size <= |fed + section|
  {
    var n := p.frame(fed + section).size;
    var m := if n <= |fed| then n else 0;
    assert (fed + section)[..m] == fed[..m] && fed[..m] + fed[m..] == fed;
  }

  /** What was left over, followed by the decrypted chunks. */
  ghost function Stream(first: Str, c: Suite, key: Str, nonce: Nonce, start: nat, script: seq<Recv>): Str {
    first + Ctr(c, key, nonce, start, Arrivals(script))
  }

  lemma NothingYet(first: Str, c: Suite, key: Str, nonce: Nonce, start: nat, script: seq<Recv>)
    ensures AllChunks(script[..0]) && Arrivals(script[..0]) == []
    ensures Stream(first, c, key, nonce, start, script[..0]) == first
  {
    assert first + [] == first;
  }

  lemma OneMore(first: Str, c: Suite, key: Str, nonce: Nonce, start: nat, script: seq<Recv>, used: nat)
    requires used < |script| && AllChunks(script[..used])
    ensures AllChunks(script[..used + 1]) <==> script[used].Chunk?
    ensures !script[used].Chunk? ==>
              && Arrivals(script[..used + 1]) == Arrivals(script[..used])
              && Stream(first, c, key, nonce, start, script[..used + 1]) ==
                 Stream(first, c, key, nonce, start, script[..used])
  {
    OneArrival(script, used);
    assert script[..used + 1][used] == script[used];
    assert AllChunks(script[..used + 1]) ==> script[..used + 1][used].Chunk?;
  }

  lemma OneArrival(script: seq<Recv>, used: nat)
    requires used < |script| && AllChunks(script[..used])
    ensures Arrivals(script[..used + 1]) ==
            Arrivals(script[..used]) + (if script[used].Chunk? then script[used].bytes else [])
  {
    assert script[..used + 1] == script[..used] + [script[used]];
    ArrivalsAppend(script[..used], [script[used]]);
    assert Arrivals([script[used]][1..]) == [];
  }

  /** The stream grows by a chunk that was decrypted at the right position. */
  lemma Grows(first: Str, c: Suite, key: Str, nonce: Nonce, start: nat, script: seq<Recv>, used: nat,
              bytes: Str, at: nat, stream: Str, more: Str)
    requires 0 < used <= |script| && AllChunks(script[..used - 1]) && script[used - 1] == Chunk(bytes)
    requires at == start + |Arrivals(script[..used - 1])| && more == Ctr(c, key, nonce, at, bytes)
    requires stream == Stream(first, c, key, nonce, start, script[..used - 1])
    ensures stream + more == Stream(first, c, key, nonce, start, script[..used])
    ensures at + |bytes| == start + |Arrivals(script[..used])|
  {
    hide Ctr, Arrivals, AllChunks;
    OneArrival(script, used - 1);
    GrowsBy(first, c, key, nonce, start, Arrivals(script[..used - 1]), bytes, at, more);
  }

  lemma GrowsBy(first: Str, c: Suite, key: Str, nonce: Nonce, start: nat, arrived: Str, bytes: Str, at: nat, more: Str)
    requires at == start + |arrived| && more == Ctr(c, key, nonce, at, bytes)
    ensures (first + Ctr(c, key, nonce, start, arrived)) + more == first + Ctr(c, key, nonce, start, arrived + bytes)
  {
    hide Ctr;
    CtrSplit(c, key, nonce, start, arrived, bytes);
    Associate(first, Ctr(c, key, nonce, start, arrived), more);
  }

  lemma FitsBuffer(r: Recv)
    requires r.Fits() && r.Chunk?
    ensures 1 <= |r.bytes| <= RECVBUFSIZE
  {
  }

  /** The last receive call that came back was an end or an error. */
  predicate Stopped(script: seq<Recv>, used: nat)
    requires used <= |script|
  {
    used > 0 && !script[used - 1].Chunk?
  }

  /** What a call made of `stream`, the bytes left over followed by those decrypted. */
  ghost predicate Outcome(p: Parser, script: seq<Recv>, used: nat, r: Option<int>, msg: Str, leftover: Str, stream: Str)
    requires used <= |script| && p.Lawful()
  {
    var stopped := Stopped(script, used);
    && (stopped ==> AllChunks(script[..used - 1])) && (!stopped ==> AllChunks(script[..used]))
    && match r
       case None => !stopped && used == |script| && p.frame(stream) == More
       case Some(n) =>
         if n > 0 then !stopped && p.frame(stream) == Message(n) && msg == stream[..n] && leftover == stream[n..]
         else if n == 0 then stopped && script[used - 1] == Closed && p.frame(stream) == More
         else n == -1 && p.frame(stream) == (if stopped then More else Bad) && (stopped ==> script[used - 1] == Failed)
  }

  function Returned(v: Verdict): Option<int> {
    match v
    case Message(n) => Some(n as int)
    case Bad => Some(-1)
    case More => None
  }

  /** The two ways to an outcome: a verdict, or an end of stream while more is needed. */
  lemma Ends(p: Parser, script: seq<Recv>, used: nat, v: Verdict, msg: Str, leftover: Str, stream: Str)
    requires p.Lawful() && used <= |script| && AllChunks(script[..used]) && v == p.frame(stream)
    requires v.More? ==> used == |script|
    requires v.Message? ==> v.size > 0 && stream == msg + leftover && |msg| == v.size
    ensures Outcome(p, script, used, Returned(v),
                    msg, leftover, stream)
  {
    assert used > 0 ==> script[..used][used - 1].Chunk?;
  }

  lemma Stops(p: Parser, script: seq<Recv>, used: nat, msg: Str, stream: Str)
    requires p.Lawful() && 0 < used <= |script| && AllChunks(script[..used - 1]) && p.frame(stream) == More
    ensures script[used - 1] == Failed ==> forall l: Str :: Outcome(p, script, used, Some(-1), msg, l, stream)
    ensures script[used - 1] == Closed ==> forall l: Str :: Outcome(p, script, used, Some(0), msg, l, stream)
  {
  }

  // ---------------------------------------------------------------- the client's thread

  /** The listener's table of clients, by descriptor. */
  class Listener {
    var clients: map<int, Client>
  }

  /** `client_handler_thread`: receives and hands over message after message, until a call
      fails or ends; then the client leaves the table. What it hands over depends on the
      decrypted stream alone, however it was cut into chunks. */
  method HandlerThread(listener: Listener, client: Client, fd: int, p: Parser, sadb: Csadb, ip: int,
                       script: seq<Recv>, ghost entry: CsadbEntry?) returns (handed: seq<Str>, blocked: bool)
    requires client.Valid() && p.Lawful() && (forall i :: 0 <= i < |script| ==> script[i].Fits())
    requires Finds(sadb, ip, entry) && (entry != null ==> entry.decr.Valid())
    modifies listener, client, client.recvbuf, if entry == null then {} else {entry.decr}
    ensures client.Valid()
    ensures listener.clients == if blocked then old(listener.clients) else old(listener.clients) - {fd}
    ensures entry == null ==> handed == [] && !blocked
    ensures entry != null ==>
              var stream := Stream(old(client.Leftover()), entry.decr.c, entry.decr.key, entry.decr.nonce,
                                   old(entry.decr.pos), script);
              && handed == Messages(p, stream)
              && (blocked <==> AllChunks(script) && p.frame(Rest(p, stream)) == More)
  {
    hide Parser.Lawful, Ctr, CAesCtr.Valid, Messages, Rest, Stream, AllChunks, Finds, Recv.Fits;
    handed, blocked := HandOver(client, p, sadb, ip, script, entry);
    if !blocked { listener.clients := listener.clients - {fd}; }
  }

  /** The loop of the thread; every call finds the association anew. */
  method HandOver(client: Client, p: Parser, sadb: Csadb, ip: int, script: seq<Recv>, ghost entry: CsadbEntry?)
    returns (handed: seq<Str>, blocked: bool)
    requires client.Valid() && p.Lawful() && (forall i :: 0 <= i < |script| ==> script[i].Fits())
    requires Finds(sadb, ip, entry) && (entry != null ==> entry.decr.Valid())
    modifies client, client.recvbuf, if entry == null then {} else {entry.decr}
    ensures client.Valid()
    ensures entry == null ==> handed == [] && !blocked
    ensures entry != null ==>
              var stream := Stream(old(client.Leftover()), entry.decr.c, entry.decr.key, entry.decr.nonce,
                                   old(entry.decr.pos), script);
              && handed == Messages(p, stream)
              && (blocked <==> AllChunks(script) && p.frame(Rest(p, stream)) == More)
  {
    hide Parser.Lawful, Ctr, CAesCtr.Valid, Arrivals, AllChunks, Outcome, Messages, Rest, Stream, Stopped, Recv.Fits;
    handed := [];
    var todo := script;
    ghost var stream := Ahead(client, entry, script);
    ghost var whole := stream;
    while true
      invariant client.Valid() && (entry != null ==> entry.decr.Valid())
      invariant forall i :: 0 <= i < |todo| ==> todo[i].Fits()
      invariant entry == null ==> handed == []
      invariant stream == Ahead(client, entry, todo)
      invariant Messages(p, whole) == handed + Messages(p, stream)
      invariant Rest(p, whole) == Rest(p, stream)
      invariant AllChunks(script) <==> AllChunks(todo)
      decreases |stream|
    {
      ghost var first, start := client.Leftover(), if entry == null then 0 else entry.decr.pos;
      var r, msg, used := client.ReceiveMessage(p, sadb, ip, todo, entry);
      if entry != null {
        var c, key, nonce := entry.decr.c, entry.decr.key, entry.decr.nonce;
        ChunksBefore(p, todo, used, r, msg, client.Leftover(), Stream(first, c, key, nonce, start, todo[..used]));
        var got, more := StreamSplit(c, key, nonce, start, todo, used, first);
        Continues(p, todo, used, r, msg, client.Leftover(), got, more);
      }
      if r == None || r.value <= 0 {
        return handed, r == None;
      }
      handed := handed + [msg];
      todo := todo[used..];
      stream := Ahead(client, entry, todo);
    }
  }

  /** The stream that a thread is about to receive. */
  ghost function Ahead(client: Client, entry: CsadbEntry?, script: seq<Recv>): Str
    reads client, client.recvbuf, if entry == null then {} else {entry.decr}
    requires client.Valid()
  {
    if entry == null then []
    else Stream(client.Leftover(), entry.decr.c, entry.decr.key, entry.decr.nonce, entry.decr.pos, script)
  }

  /** One received message is the first of the stream and leaves the rest of it; any other
      outcome means that the stream holds no message. */
  lemma Continues(p: Parser, script: seq<Recv>, used: nat, r: Option<int>, msg: Str, leftover: Str, got: Str, more: Str)
    requires p.Lawful() && used <= |script| && Outcome(p, script, used, r, msg, leftover, got)
    requires used == |script| || Stopped(script, used) ==> more == []
    ensures r.Some? && r.value > 0 ==>
              && |leftover + more| < |got + more|
              && Messages(p, got + more) == [msg] + Messages(p, leftover + more)
              && Rest(p, got + more) == Rest(p, leftover + more)
              && (AllChunks(script) <==> AllChunks(script[used..]))
    ensures r.None? || r.value <= 0 ==>
              && Messages(p, got + more) == []
              && (r.None? <==> AllChunks(script) && p.frame(Rest(p, got + more)) == More)
  {
    hide Arrivals, AllChunks, Messages, Rest, Parser.Lawful;
    if Stopped(script, used) {
      StoppedArrivals(script, used);
      Verdicts(p, got, []);
      assert got + [] == got;
    } else {
      ChunksSplit(script, used);
      Unstopped(p, r, msg, leftover, got, more);
    }
  }

  lemma Unstopped(p: Parser, r: Option<int>, msg: Str, leftover: Str, got: Str, more: Str)
    requires p.Lawful()
    requires match r
             case None => p.frame(got) == More && more == []
             case Some(n) =>
               if n > 0 then p.frame(got) == Message(n) && msg == got[..n] && leftover == got[n..]
               else p.frame(got) == Bad
    ensures r.Some? && r.value > 0 ==>
              && |leftover + more| < |got + more|
              && Messages(p, got + more) == [msg] + Messages(p, leftover + more)
              && Rest(p, got + more) == Rest(p, leftover + more)
    ensures r.None? || r.value <= 0 ==>
              && Messages(p, got + more) == []
              && p.frame(Rest(p, got + more)) == if r.None? then More else Bad
  {
    Verdicts(p, got, more);
    assert got + [] == got;
    hide Messages, Rest, Parser.Lawful;
  }

  /** The stream after `used` receive calls: what was decrypted, then what is to come. */
  lemma StreamSplit(c: Suite, key: Str, nonce: Nonce, start: nat, script: seq<Recv>, used: nat, first: Str)
    returns (got: Str, more: Str)
    requires used <= |script| && AllChunks(script[..if Stopped(script, used) then used - 1 else used])
    ensures got == Stream(first, c, key, nonce, start, script[..used])
    ensures Stream(first, c, key, nonce, start, script) == got + more
    ensures used == |script| || Stopped(script, used) ==> more == []
    ensures !Stopped(script, used) ==>
              forall l: Str :: Stream(l, c, key, nonce, start + |Arrivals(script[..used])|, script[used..]) == l + more
  {
    var a, b := Arrivals(script[..used]), Arrivals(script[used..]);
    got := first + Ctr(c, key, nonce, start, a);
    if Stopped(script, used) {
      StoppedArrivals(script, used);
      more := [];
    } else {
      assert script == script[..used] + script[used..];
      ArrivalsAppend(script[..used], script[used..]);
      CtrSplit(c, key, nonce, start, a, b);
      more := Ctr(c, key, nonce, start + |a|, b);
      Associate(first, Ctr(c, key, nonce, start, a), more);
    }
  }

  lemma Associate(a: Str, b: Str, c: Str)
    ensures (a + b) + c == a + (b + c)
  {
  }

  /** What a verdict on `got` says about every longer stream. */
  lemma Verdicts(p: Parser, got: Str, more: Str)
    requires p.Lawful()
    ensures p.frame(got).Bad? ==> Messages(p, got + more) == [] && p.frame(Rest(p, got + more)) == Bad
    ensures p.frame(got).More? ==> Messages(p, got) == [] && p.frame(Rest(p, got)) == More
    ensures p.frame(got).Message? ==>
              var n := p.frame(got).size;
              && 0 < n <= |got| && Messages(p, got + more) == [got[..n]] + Messages(p, got[n..] + more)
              && Rest(p, got + more) == Rest(p, got[n..] + more)
  {
    if p.frame(got).Message? {
      var n := p.frame(got).size;
      assert (got + more)[..n] == got[..n] && (got + more)[n..] == got[n..] + more;
    }
  }

  lemma ChunksBefore(p: Parser, script: seq<Recv>, used: nat, r: Option<int>, msg: Str, leftover: Str, stream: Str)
    requires used <= |script| && p.Lawful() && Outcome(p, script, used, r, msg, leftover, stream)
    ensures AllChunks(script[..if Stopped(script, used) then used - 1 else used])
    ensures r.Some? && r.value > 0 ==> !Stopped(script, used)
  {
    hide Parser.Lawful;
  }

  lemma ChunksSplit(script: seq<Recv>, used: nat)
    requires used <= |script| && AllChunks(script[..used])
    ensures AllChunks(script) <==> AllChunks(script[used..])
    ensures used == |script| ==> AllChunks(script) && Arrivals(script[used..]) == []
  {
    assert script == script[..used] + script[used..];
  }

  /** After an end or an error nothing arrives. */
  lemma StoppedArrivals(script: seq<Recv>, used: nat)
    requires 0 < used <= |script| && !script[used - 1].Chunk? && AllChunks(script[..used - 1])
    ensures Arrivals(script) == Arrivals(script[..used]) && !AllChunks(script)
  {
    hide Arrivals;
    var a, b, x := script[..used - 1], script[used - 1..], script[used - 1];
    assert b[0] == x && script == a + b && script[..used] == a + [x];
    NothingArrives(b);
    NothingArrives([x]);
    ArrivalsAppend(a, b);
    ArrivalsAppend(a, [x]);
  }

  lemma NothingArrives(script: seq<Recv>)
    requires script != [] && !script[0].Chunk?
    ensures Arrivals(script) == []
  {
  }
}
