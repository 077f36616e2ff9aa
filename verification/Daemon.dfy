/** `CDexDaemon` with its connection factory and client handler: datagrams are rebuilt,
    assigned to the connection for their sender, and handled. */
module Daemon {
  import opened Bytes
  import opened Crypto
  import opened Parameters
  import opened Packets
  import opened ConnectionStates
  import opened SaStore
  import opened Handshake
  import opened HandshakeLaws
  import opened HandshakeRuns

  /** What the factory returns for an address: its connection, or a new one. */
  function Peer(table: map<Str, ConnState>, h: Str): ConnState {
    if h in table then table[h] else Fresh()
  }

  /** Only the connection for `h` may have changed. */
  ghost predicate OnlyFor(h: Str, before: map<Str, ConnState>, now: map<Str, ConnState>) {
    forall g :: g != h ==> Peer(now, g) == Peer(before, g)
  }

  /** The factory made no difference to what it returns for any address. */
  ghost predicate SamePeers(before: map<Str, ConnState>, now: map<Str, ConnState>) {
    forall g :: Peer(now, g) == Peer(before, g)
  }

  /** After the factory, one connection changes. */
  lemma OneChanged(h: Str, before: map<Str, ConnState>, made: map<Str, ConnState>, now: map<Str, ConnState>,
                   conn: ConnState)
    requires SamePeers(before, made) && now == made[h := conn]
    ensures Peer(now, h) == conn && OnlyFor(h, before, now)
  {
  }

  /** A handler that returned at once left everything as it was. */
  lemma NothingDone(conn: ConnState, h: Str, table: map<Str, ConnState>, db: Listing<CsadbEntry>)
    ensures Carries(Done(conn, None, None), Finished, conn, None)
    ensures Stores(Done(conn, None, None), null, db, db)
    ensures Carries(Fault, Crashed, conn, None) && Stores(Fault, null, db, db)
    ensures OnlyFor(h, table, table)
  {
    hide Store;
  }

  function I1Packet(from: Hit, to: Hit): Packet {
    Packet(59, I1, 2, 0, from, to, [DhGroupList([DH_GROUP_ECP192])])
  }

  /** What the daemon sends to begin is the I1 of an honest exchange, and a daemon at the other
      end whose connection is idle answers it with that exchange's R1. */
  lemma InitiateAsksFor(s: Peers, conn: ConnState, given: Inputs)
    requires Admits(conn.state, I1)
    ensures I1Packet(s.hitI, s.hitR) == s.MsgI1() && Printable(s.MsgI1().params)
    ensures Incoming(s.c, s.privR, conn, ToBytes(I1Packet(s.hitI, s.hitR)), given) ==
            Done(conn.(state := UNASSOCIATED), Some(s.MsgR1()), None)
  {
    RequestsTravel(s);
    ResponderAnswersI1(s, conn);
    hide Admits, ToBytes, Unpack, OnI1, Peers.MsgR1;
  }

  method PrintI1(from: Hit, to: Hit) returns (sent: Option<Str>)
    ensures Sends(sent, Some(I1Packet(from, to)))
  {
    var packet := new HipPacket(I1);
    packet.AddParameter(DhGroupList([DH_GROUP_ECP192]));
    packet.SetHits(from, to);
    assert packet.View() == I1Packet(from, to);
    hide ToBytes;
    var bytes := packet.Serialise();
    sent := Some(bytes);
  }

  class DexDaemon {
    const c: Suite
    const priv: Str
    const hit: Hit
    const sadb: Csadb
    var conns: map<Str, Connection>

    /** No two addresses share a connection. */
    ghost predicate Valid()
      reads this
    {
      forall g, h :: g in conns && h in conns && g != h ==> conns[g] != conns[h]
    }

    function Table(): map<Str, ConnState>
      reads this, conns.Values
    {
      map h | h in conns :: conns[h].View()
    }

    constructor (c: Suite, priv: Str, hit: Hit)
      ensures Valid() && Table() == map[] && fresh(sadb) && sadb.View() == []
      ensures this.c == c && this.priv == priv && this.hit == hit
    {
      this.c, this.priv, this.hit := c, priv, hit;
      sadb := new Csadb();
      conns := map[];
    }

    /** The table, when only the connection for `h` differs from `made`. */
    lemma TableUpdated(made: map<Str, ConnState>, h: Str, conn: Connection)
      requires made.Keys == conns.Keys && h in conns && conns[h] == conn
      requires forall g :: g in conns && g != h ==> conns[g].View() == made[g]
      ensures Table() == made[h := conn.View()]
    {
      assert Table().Keys == conns.Keys;
    }

    /** `CConnectionFactory::Create`. */
    method Create(h: Str) returns (conn: Connection)
      requires Valid()
      modifies this`conns
      ensures Valid() && h in conns && conns[h] == conn
      ensures conn.View() == Peer(old(Table()), h)
      ensures SamePeers(old(Table()), Table())
      ensures forall g :: g in conns && g != h ==> conns[g] != conn
      ensures h in old(conns) ==> conns == old(conns)
      ensures h !in old(conns) ==> fresh(conn) && conns == old(conns)[h := conn]
    {
      if h in conns { return conns[h]; }
      conn := new Connection();
      conns := conns[h := conn];
    }

    /** Marks the connection as asking, with the group list it offers, and sends an I1. */
    method Initiate(h: Hit) returns (sent: Option<Str>)
      requires Valid()
      modifies this, conns.Values
      ensures Valid()
      ensures Sends(sent, Some(I1Packet(hit, h)))
      ensures Peer(Table(), h) ==
              Peer(old(Table()), h).(dhGroupList := [DH_GROUP_ECP192], state := I1_SENT)
      ensures OnlyFor(h, old(Table()), Table())
    {
      hide Sends, I1Packet, Peer, OnlyFor;
      sent := PrintI1(hit, h);
      Ask(h);
    }

    method Ask(h: Hit)
      requires Valid()
      modifies this, conns.Values
      ensures Valid()
      ensures Peer(Table(), h) ==
              Peer(old(Table()), h).(dhGroupList := [DH_GROUP_ECP192], state := I1_SENT)
      ensures OnlyFor(h, old(Table()), Table())
    {
      ghost var before := Table();
      var conn := Create(h);
      hide Peer, OnlyFor, SamePeers, Valid;
      ghost var made := Table();
      conn.dhGroupList := [DH_GROUP_ECP192];
      conn.state := I1_SENT;
      TableUpdated(made, h, conn);
      OneChanged(h, before, made, Table(), conn.View());
    }

    /** Hands a packet to the connection for its sender; no other connection changes. */
    method Deliver(p: Packet, given: Inputs)
      returns (r: Outcome, sent: Option<Str>, entry: CsadbEntry?)
      requires Valid()
      modifies this, conns.Values, sadb
      ensures Valid()
      ensures var e := Dispatch(c, priv, Peer(old(Table()), p.senderHit), p, given);
              && Carries(e, r, Peer(Table(), p.senderHit), sent)
              && Stores(e, entry, old(sadb.View()), sadb.View())
      ensures OnlyFor(p.senderHit, old(Table()), Table())
      ensures entry != null ==> fresh(entry) && entry.Starts(c)
    {
      hide Dispatch, Store, ToBytes, Carries, Stores, Peer, OnlyFor, SamePeers;
      hide Valid, Connection.View, Csadb.View, CsadbEntry.Starts;
      ghost var before := Table();
      var conn := Create(p.senderHit);
      ghost var made := Table();
      r, sent, entry := conn.Handle(c, priv, p, given, sadb);
      TableUpdated(made, p.senderHit, conn);
      OneChanged(p.senderHit, before, made, Table(), conn.View());
    }

    /** `CClientHandler::Run`: a datagram that the packet factory rebuilds is delivered. */
    method Receive(bytes: array<Byte>, given: Inputs)
      returns (r: Outcome, sent: Option<Str>, entry: CsadbEntry?)
      requires Valid()
      modifies this, conns.Values, sadb, bytes
      ensures Valid()
      ensures var m, before := old(bytes[..]), old(Table());
              var h := Unpack(m).1.senderHit;
              var e := Incoming(c, priv, Peer(before, h), m, given);
              && Carries(e, r, Peer(Table(), h), sent)
              && Stores(e, entry, old(sadb.View()), sadb.View())
              && OnlyFor(h, before, Table())
      ensures entry != null ==> fresh(entry) && entry.Starts(c)
    {
      hide Unpack, Dispatch, Peer, OnlyFor, Carries, Stores;
      ghost var m, before := bytes[..], Table();
      r, sent, entry := Finished, None, null;
      var status, p := Rebuild(bytes);
      assert Table() == before;
      NothingDone(Peer(before, p.senderHit), p.senderHit, before, sadb.View());
      if status == Accepted {
        r, sent, entry := Deliver(p, given);
      } else if status != Refused {
        r := Crashed;
      }
    }
  }

  /** `CHipPacketFactory::Create`: a new object for the kind in byte 2, filled in place. */
  method Rebuild(bytes: array<Byte>) returns (status: Status, p: Packet)
    modifies bytes
    ensures (status, p) == Unpack(old(bytes[..]))
  {
    hide Received;
    if bytes.Length < PACKET_HEADER { return Refused, Blank(0); }
    var kind: Byte := bytes[2] % 128;
    if kind != I1 && kind != R1 && kind != I2 && kind != R2 { return Refused, Blank(0); }
    var packet := new HipPacket(kind);
    status := packet.FromBytes(bytes);
    p := packet.View();
  }
}
