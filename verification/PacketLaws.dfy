/** What the packet codec promises: printing then parsing, tiling, and the MAC. */
module PacketLaws {
  import opened Bytes
  import opened Checksum
  import opened Crypto
  import opened Parameters
  import opened Packets

  // ---------------------------------------------------------------- header

  lemma HeaderParts(p: Packet, lengthByte: Byte, checksum: Word)
    ensures var h := Header(p, lengthByte, checksum);
            && h[0] == p.nextHdr && h[2] == p.kind % 128 && h[3] / 16 == p.version % 16
            && h[4] == Hi(checksum) && h[5] == Lo(checksum) && Join(h[6], h[7]) == p.ctrls
            && h[8..24] == p.senderHit && h[24..40] == p.receiverHit
  {
    hide Hi, Lo, Join;
    JoinSplit(p.ctrls);
    VersionNibble(p.version);
    var third: Byte := 16 * p.version % 256 + 1;
    var front: Str := [p.nextHdr, lengthByte, p.kind % 128, third,
                       Hi(checksum), Lo(checksum), Hi(p.ctrls), Lo(p.ctrls)];
    HeaderSlices(front, p.senderHit, p.receiverHit);
    assert Header(p, lengthByte, checksum) == front + p.senderHit + p.receiverHit;
    hide Header;
  }

  lemma VersionNibble(v: Byte)
    ensures (16 * v % 256 + 1) / 16 == v % 16
  {
    LowVersion(v);
  }

  lemma LowVersion(v: Byte)
    ensures 16 * v % 256 == 16 * (v % 16)
  {
    var q, r := v / 16, v % 16;
    assert 16 * v as int == 256 * q + 16 * r;
  }

  lemma HeaderSlices(front: Str, a: Hit, b: Hit)
    requires |front| == 8
    ensures var h := front + a + b;
            && h[0] == front[0] && h[2] == front[2] && h[3] == front[3] && h[4] == front[4] && h[5] == front[5]
            && h[6] == front[6] && h[7] == front[7] && h[8..24] == a && h[24..40] == b
  {
  }

  lemma PrintedHeader(p: Packet)
    requires Printable(p.params)
    ensures var s := ToBytes(p);
            && s[0] == p.nextHdr && s[2] == p.kind % 128 && s[3] / 16 == p.version % 16
            && Join(s[6], s[7]) == p.ctrls && s[8..24] == p.senderHit && s[24..40] == p.receiverHit
  {
    var n: Byte := (PACKET_HEADER + TotalLength(p.params) - 8) / 8 % 256;
    HeaderParts(p, n, 0);
    var h, s, b := Header(p, n, 0), ToBytes(p), Body(p.params);
    hide Header, Body, ChecksumOf, Join;
    var c := Cleared(p);
    assert c == h + b;
    assert forall i :: 0 <= i < PACKET_HEADER && i != 4 && i != 5 ==> s[i] == c[i] == h[i];
    assert s[8..24] == h[8..24] && s[24..40] == h[24..40];
  }

  /** Byte 1 of a printed packet is its length in units of 8 bytes, less one, as far as it
      fits; byte 3 ends in the bit that RFC 7401 sets. */
  lemma PrintedLength(p: Packet)
    requires Printable(p.params)
    ensures var s := ToBytes(p); |s| % 8 == 0 && s[1] == (|s| / 8 - 1) % 256 && s[3] % 16 == 1
  {
    var total := TotalLength(p.params);
    var n: Byte := (PACKET_HEADER + total - 8) / 8 % 256;
    TotalMultiple(p.params);
    LengthParts(p, n);
    UnitsOf8(total);
    hide Body, ChecksumOf, Header, TotalLength, Printable;
    var h, s, c := Header(p, n, 0), ToBytes(p), Cleared(p);
    assert s[1] == c[1] == h[1] && s[3] == c[3] == h[3];
  }

  lemma LengthParts(p: Packet, n: Byte)
    ensures Header(p, n, 0)[1] == n && Header(p, n, 0)[3] % 16 == 1
  {
    hide Hi, Lo;
    LowVersion(p.version);
    LowNibble(p.version % 16, 1);
    assert Header(p, n, 0)[3] == 16 * p.version % 256 + 1;
    hide Header;
  }

  lemma UnitsOf8(total: nat)
    requires total % 8 == 0
    ensures (PACKET_HEADER + total) % 8 == 0
    ensures (PACKET_HEADER + total - 8) / 8 == (PACKET_HEADER + total) / 8 - 1
  {
  }

  lemma {:induction false} TotalMultiple(ps: seq<HipParam>)
    ensures TotalLength(ps) % 8 == 0
  {
    hide HipParam.Length;
    if ps != [] {
      LengthMultiple(ps[|ps| - 1]);
      TotalMultiple(ps[..|ps| - 1]);
    }
  }

  /** Clearing the checksum field of a printed packet gives the bytes it was computed
      over, so a printed packet always passes the checksum. */
  lemma PrintedChecksum(p: Packet)
    requires Printable(p.params)
    ensures PutWord(ToBytes(p), 4, 0) == Cleared(p)
    ensures ChecksumMatches(ToBytes(p))
  {
    var n: Byte := (PACKET_HEADER + TotalLength(p.params) - 8) / 8 % 256;
    HeaderParts(p, n, 0);
    var c := Cleared(p);
    assert c[4] == 0 && c[5] == 0;
    hide Header, Body, ChecksumOf, Cleared;
    assert c == c[4 := 0][5 := 0];
    PutTwice(c, 4, ChecksumOf(c), 0);
  }

  lemma PutTwice(s: Str, i: nat, v: Word, w: Word)
    requires i + 1 < |s|
    ensures PutWord(PutWord(s, i, v), i, w) == PutWord(s, i, w)
  {
    hide Hi, Lo;
  }

  // ---------------------------------------------------------------- parameters

  lemma {:induction false} BodyFront(ps: seq<HipParam>)
    requires ps != [] && Printable(ps)
    ensures Body(ps) == ps[0].ToBytes() + Body(ps[1..])
    ensures TotalLength(ps) == ps[0].Length() + TotalLength(ps[1..])
  {
    hide HipParam.ToBytes, HipParam.Length, HipParam.Printable;
    var front, last := ps[..|ps| - 1], ps[|ps| - 1];
    if front == [] {
      assert ps[1..] == [] && Body(front) == [] && Body([]) == [];
      assert ps[0].ToBytes() + [] == ps[0].ToBytes();
    } else {
      var tail := ps[1..];
      assert tail[..|tail| - 1] == front[1..] && tail[|tail| - 1] == last && front[0] == ps[0];
      assert Body(ps) == Body(front) + last.ToBytes() && Body(tail) == Body(front[1..]) + last.ToBytes();
      assert TotalLength(tail) == TotalLength(front[1..]) + last.Length();
      hide Body;
      BodyFront(front);
      Regroup(ps[0].ToBytes(), Body(front[1..]), last.ToBytes());
    }
  }

  /** Parsing the printed parameters gives them back exactly when all are faithful. */
  lemma {:induction false} ParsePrinted(s: Str, off: nat, ps: seq<HipParam>)
    requires Printable(ps) && off >= PACKET_HEADER
    requires off + TotalLength(ps) == |s| && Occurs(s, off, Body(ps))
    ensures ParseFrom(s, off) == Parsed(Accepted, ps) <==> AllFaithful(ps, s[2])
    decreases |ps|
  {
    hide HipParam.ToBytes, HipParam.Faithful, HipParam.Printable, HipParam.Length, Decode;
    if ps == [] {
    } else {
      var p, rest := ps[0], ps[1..];
      BodyFront(ps);
      LengthPositive(p);
      hide Body, TotalLength;
      OccursConcat(s, off, p.ToBytes(), Body(rest));
      DecodePrinted(s, off, p);
      hide Occurs;
      ParsePrinted(s, off + p.Length(), rest);
      ParseStep(s, off, p, rest, p.Faithful(s[2]), AllFaithful(rest, s[2]));
      assert ps == [p] + rest;
    }
  }

  /** One round of the loop on a parameter that is followed by the printed `rest`. */
  lemma ParseStep(s: Str, off: nat, p: HipParam, rest: seq<HipParam>, here: bool, later: bool)
    requires 0 < p.Length() && off + p.Length() <= |s|
    requires Decode(s, off) == Ok(p) <==> here
    requires ParseFrom(s, off + p.Length()) == Parsed(Accepted, rest) <==> later
    ensures ParseFrom(s, off) == Parsed(Accepted, [p] + rest) <==> here && later
  {
    hide HipParam.Length, Decode;
    var parsed := ParseFrom(s, off);
    if parsed.params == [p] + rest { assert parsed.params[1..] == rest; }
  }

  lemma LengthPositive(p: HipParam)
    requires p.Printable()
    ensures p.Length() >= 8
  {
  }

  predicate AllFaithful(ps: seq<HipParam>, b2: Byte) {
    forall i :: 0 <= i < |ps| ==> ps[i].Faithful(b2)
  }

  /** Print, then parse into an object `q` whose parameter list may be non-empty. The
      header and the parameters come back exactly when the version fits four bits and
      every parameter is faithful. */
  lemma PrintParse(p: Packet, q: Packet, s: Str, b2: Byte)
    requires Printable(p.params) && s == ToBytes(p) && b2 == p.kind % 128
    ensures Received(q, s) == (Accepted, p.(kind := q.kind, params := q.params + p.params))
            <==> p.version < 16 && AllFaithful(p.params, b2)
  {
    hide ParseFrom, ToBytes, Cleared, ChecksumMatches, AllFaithful, PutWord, Received, Fields;
    ReceivedPrinted(p, q);
    PrintedHeader(p);
    ParseCleared(p);
    FieldsIff(p, q, s, ParseFrom(Cleared(p), PACKET_HEADER), AllFaithful(p.params, b2));
  }

  lemma ReceivedPrinted(p: Packet, q: Packet)
    requires Printable(p.params)
    ensures var parsed := ParseFrom(Cleared(p), PACKET_HEADER);
            Received(q, ToBytes(p)) ==
            (parsed.status, Fields(q, ToBytes(p)).(params := q.params + parsed.params))
  {
    PrintedChecksum(p);
    hide ToBytes, Cleared, ChecksumMatches, Fields, ParseFrom, PutWord;
  }

  lemma ParseCleared(p: Packet)
    requires Printable(p.params)
    ensures ParseFrom(Cleared(p), PACKET_HEADER) == Parsed(Accepted, p.params) <==> AllFaithful(p.params, p.kind % 128)
  {
    ClearedOccurs(p);
    var n: Byte := (PACKET_HEADER + TotalLength(p.params) - 8) / 8 % 256;
    HeaderParts(p, n, 0);
    assert Cleared(p)[2] == Header(p, n, 0)[2];
    hide Cleared, Header;
    ParsePrinted(Cleared(p), PACKET_HEADER, p.params);
  }

  lemma FieldsIff(p: Packet, q: Packet, s: Str, parsed: Parsed, faithful: bool)
    requires |s| >= PACKET_HEADER && s[0] == p.nextHdr && s[3] / 16 == p.version % 16
    requires Join(s[6], s[7]) == p.ctrls && s[8..24] == p.senderHit && s[24..40] == p.receiverHit
    requires parsed == Parsed(Accepted, p.params) <==> faithful
    ensures (parsed.status, Fields(q, s).(params := q.params + parsed.params))
            == (Accepted, p.(kind := q.kind, params := q.params + p.params))
            <==> p.version < 16 && faithful
  {
    assert q.params + parsed.params == q.params + p.params <==> parsed.params == p.params by {
      assert (q.params + parsed.params)[|q.params|..] == parsed.params;
      assert (q.params + p.params)[|q.params|..] == p.params;
    }
  }

  lemma ClearedOccurs(p: Packet)
    requires Printable(p.params)
    ensures Occurs(Cleared(p), PACKET_HEADER, Body(p.params))
  {
    hide Header, Body;
  }

  /** The factory rebuilds a printed packet exactly when it has one of the four kinds, a
      four-bit version and faithful parameters; of those kinds, HOST_ID must carry no
      domain identifier type. */
  lemma UnpackPrinted(p: Packet)
    requires Printable(p.params)
    ensures Unpack(ToBytes(p)) == (Accepted, p)
            <==> 1 <= p.kind <= 4 && p.version < 16 && AllFaithful(p.params, 0)
  {
    hide ToBytes, Received, Unpack, AllFaithful;
    var k := p.kind % 128;
    PrintedHeader(p);
    PrintParse(p, Blank(k), ToBytes(p), k);
    if 1 <= k <= 4 { FaithfulSameNibble(p.params, k, 0); }
    UnpackIff(p, k, ToBytes(p), AllFaithful(p.params, 0));
  }

  lemma UnpackIff(p: Packet, k: Byte, s: Str, faithful: bool)
    requires |s| >= PACKET_HEADER && s[2] == k == p.kind % 128
    requires 1 <= k <= 4 ==>
               (Received(Blank(k), s) == (Accepted, p.(kind := k, params := [] + p.params)) <==>
                p.version < 16 && faithful)
    ensures Unpack(s) == (Accepted, p) <==> 1 <= p.kind <= 4 && p.version < 16 && faithful
  {
    hide Received;
    assert [] + p.params == p.params;
    if 1 <= k <= 4 { assert Unpack(s) == Received(Blank(k), s); ReceivedKind(Blank(k), s); }
  }

  lemma ReceivedKind(q: Packet, s: Str)
    requires |s| >= PACKET_HEADER
    ensures Received(q, s).1.kind == q.kind
  {
    hide ParseFrom, ChecksumMatches, PutWord;
  }

  lemma FaithfulSameNibble(ps: seq<HipParam>, a: Byte, b: Byte)
    requires a / 16 == b / 16
    ensures AllFaithful(ps, a) <==> AllFaithful(ps, b)
  {
    assert forall p: HipParam :: p.Faithful(a) <==> p.Faithful(b);
  }

  /** Printing is injective on the packets the factory rebuilds. */
  lemma PrintInjective(p: Packet, q: Packet)
    requires Printable(p.params) && Printable(q.params) && ToBytes(p) == ToBytes(q)
    requires 1 <= p.kind <= 4 && p.version < 16 && AllFaithful(p.params, 0)
    requires 1 <= q.kind <= 4 && q.version < 16 && AllFaithful(q.params, 0)
    ensures p == q
  {
    UnpackPrinted(p);
    UnpackPrinted(q);
  }

  /** On any input of at most 65568 bytes the parse loop never stalls, and when it
      accepts, the TLVs of the decoded parameters tile the bytes up to the end. */
  lemma {:induction false} ParseTiles(s: Str, off: nat)
    requires PACKET_HEADER <= off <= |s| <= 65568
    ensures ParseFrom(s, off).status != Stalled
    ensures ParseFrom(s, off).status == Accepted ==>
              Tiles(s, off, ParseFrom(s, off).params)
    decreases |s| - off
  {
    hide Decode, HipParam.Type, HipParam.Size, HipParam.Length, TlvStarts, Join;
    if off < |s| && Decode(s, off).Ok? {
      var p := Decode(s, off).param;
      DecodedLength(s, off);
      DecodedStarts(s, off);
      ParseTiles(s, off + p.Length());
      TilesMore(s, off, p, ParseFrom(s, off + p.Length()).params);
    }
  }

  lemma DecodedStarts(s: Str, off: nat)
    requires PACKET_HEADER <= off <= |s| && Decode(s, off).Ok?
    ensures TlvStarts(s, off, Decode(s, off).param)
  {
    DecodedSpans(s, off);
    hide Decode, HipParam.Type, HipParam.Size, Join;
  }

  lemma TilesMore(s: Str, off: nat, p: HipParam, rest: seq<HipParam>)
    requires TlvStarts(s, off, p)
    ensures Tiles(s, off + p.Length(), rest) ==> Tiles(s, off, [p] + rest)
  {
    hide TlvStarts, HipParam.Length;
    assert ([p] + rest)[1..] == rest;
  }

  /** The parameters `ps` are exactly the TLVs of `s` from `off` to the end. */
  predicate Tiles(s: Str, off: nat, ps: seq<HipParam>)
    decreases |ps|
  {
    if ps == [] then off == |s|
    else TlvStarts(s, off, ps[0]) && Tiles(s, off + ps[0].Length(), ps[1..])
  }

  predicate TlvStarts(s: Str, o: nat, p: HipParam) {
    o + HEADER <= |s| && Join(s[o], s[o + 1]) == p.Type() && Join(s[o + 2], s[o + 3]) == p.Size()
  }

  /** The parse loop that starts at `off` comes to offset `o`. */
  predicate Reaches(s: Str, off: nat, o: nat)
    requires off <= |s|
    decreases |s| - off
  {
    o == off ||
    (off < |s| && Decode(s, off).Ok? &&
     var n := Decode(s, off).param.Length();
     0 < n && off + n <= |s| && Reaches(s, off + n, o))
  }

  /** A parameter is decoded at `o` whose TLV is from 65525 to 65532 bytes long. */
  predicate SticksAt(s: Str, o: nat) {
    o + HEADER <= |s| && Decode(s, o).Ok? && 65525 <= Join(s[o + 2], s[o + 3]) <= 65532
  }

  lemma PaddedZeroIff(size: Word)
    ensures Padded(size) == 0 <==> 65525 <= size <= 65532
  {
  }

  /** On any input the loop stalls exactly when it comes to a parameter whose TLV is from
      65525 to 65532 bytes long, so that its padded length wraps to 0. */
  lemma {:induction false} StallsIff(s: Str, off: nat)
    requires PACKET_HEADER <= off <= |s|
    ensures ParseFrom(s, off).status == Stalled <==> exists o: nat :: Reaches(s, off, o) && SticksAt(s, o)
    decreases |s| - off
  {
    hide Decode, HipParam.Size, Padded, Join;
    if off < |s| && Decode(s, off).Ok? {
      var n := Decode(s, off).param.Length();
      DecodedSpans(s, off);
      PaddedZeroIff(Decode(s, off).param.Size());
      assert SticksAt(s, off) <==> n == 0;
      if 0 < n && off + n <= |s| {
        StallsIff(s, off + n);
        hide SticksAt;
        forall o: nat
          ensures Reaches(s, off, o) <==> o == off || Reaches(s, off + n, o)
        {
        }
      } else {
        assert Reaches(s, off, off);
      }
    }
  }

  /** Past the bound of `ParseTiles` that happens: a packet of 65569 bytes with one
      HIP_MAC_3 of 65525 bytes. */
  lemma StallsPastTheBound(s: Str)
    requires |s| == 65569
    requires Join(s[40], s[41]) == HIP_MAC_3 && Join(s[42], s[43]) == 65525
    ensures ParseFrom(s, PACKET_HEADER).status == Stalled
  {
    ZeroLengthDecoded(s);
    hide Decode, HipParam.Length;
  }

  // ---------------------------------------------------------------- refusal

  /** Up to 131074 bytes, `FromBytes` goes on to parse exactly when the whole packet sums to 0
      modulo 65535 and the stored checksum is 0xFFFF just for the packet that is otherwise all
      zero; any other packet is refused, and the object stays as it was. */
  lemma RefusesBadSums(q: Packet, s: Str)
    requires PACKET_HEADER <= |s| <= SAFE_LENGTH
    ensures var parsed := ParseFrom(PutWord(s, 4, 0), PACKET_HEADER);
            Received(q, s) ==
            if WordSum(s) % 0xFFFF == 0 && (WordAt(s, 4) == 0xFFFF <==> WordSum(PutWord(s, 4, 0)) == 0)
            then (parsed.status, Fields(q, s).(params := q.params + parsed.params)) else (Refused, q)
  {
    AcceptedIff(s);
    ResidueIsRemainder(WordSum(s));
    hide ChecksumMatches, ParseFrom, WordSum, PutWord, Fields;
  }

  /** What the factory accepts has a header, one of the four kinds, and sums to 0. */
  lemma AcceptedSums(s: Str)
    requires |s| <= SAFE_LENGTH && Unpack(s).0 == Accepted
    ensures |s| >= PACKET_HEADER && 1 <= s[2] % 128 <= 4 && Unpack(s).1.kind == s[2] % 128
    ensures WordSum(s) % 0xFFFF == 0 && (WordAt(s, 4) == 0xFFFF <==> WordSum(PutWord(s, 4, 0)) == 0)
  {
    hide Received, WordSum, WordAt;
    RefusesBadSums(Blank(s[2] % 128), s);
    ReceivedKind(Blank(s[2] % 128), s);
  }

  /** A packet whose checksum matches, with one aligned word changed: it is refused by any
      object, unless the change is between 0x0000 and 0xFFFF outside the checksum field. */
  lemma WordChangeRefused(s: Str, i: nat, w: Word, q: Packet)
    requires PACKET_HEADER <= |s| <= SAFE_LENGTH && ChecksumMatches(s)
    requires i % 2 == 0 && i + 1 < |s| && w != WordAt(s, i)
    requires i != 4 ==> !(w == 0 && WordAt(s, i) == 0xFFFF) && !(w == 0xFFFF && WordAt(s, i) == 0)
    ensures Received(q, PutWord(s, i, w)) == (Refused, q)
  {
    if i == 4 { PutTwice(s, 4, w, 0); } else { WordChangeDetected(s, i, w); }
    hide PutWord, WordAt;
    BadChecksum(q, PutWord(s, i, w));
  }

  lemma BadChecksum(q: Packet, s: Str)
    requires |s| >= PACKET_HEADER
    ensures !ChecksumMatches(s) ==> Received(q, s) == (Refused, q)
    ensures ChecksumMatches(s) <== Received(q, s).0 == Accepted
  {
    hide ChecksumMatches, ParseFrom, PutWord, Fields;
  }

  /** Packets that are accepted are whole multiples of 8 bytes long. */
  lemma AcceptedLength(s: Str)
    requires |s| <= 65568 && Unpack(s).0 == Accepted
    ensures |s| % 8 == 0
  {
    var t := PutWord(s, 4, 0);
    ParseTiles(t, PACKET_HEADER);
    hide ParseFrom, PutWord, ChecksumMatches;
    TilesMultiple(t, PACKET_HEADER, ParseFrom(t, PACKET_HEADER).params);
  }

  lemma {:induction false} TilesMultiple(s: Str, off: nat, ps: seq<HipParam>)
    requires Tiles(s, off, ps)
    ensures |s| % 8 == off % 8
    decreases |ps|
  {
    hide TlvStarts, HipParam.Length;
    if ps != [] {
      LengthMultiple(ps[0]);
      TilesMultiple(s, off + ps[0].Length(), ps[1..]);
    }
  }

  lemma LengthMultiple(p: HipParam)
    ensures p.Length() % 8 == 0
  {
    hide HipParam.Size;
  }

  /** No accepted datagram is accepted after a change of one byte, wherever it is. */
  lemma ByteChangeRefused(s: Str, j: nat, b: Byte)
    requires |s| <= 65568 && Unpack(s).0 == Accepted && j < |s| && b != s[j]
    ensures Unpack(s[j := b]).0 == Refused
  {
    AcceptedLength(s);
    var i, t := j - j % 2, s[j := b];
    assert i % 2 == 0 && i + 1 < |s| by { EvenBelow(j, |s|); }
    BadChecksum(Blank(s[2] % 128), s);
    ByteAsWord(s, j, i, b);
    hide PutWord, WordAt, ChecksumMatches, Received;
    WordChangeRefused(s, i, WordAt(t, i), Blank(t[2] % 128));
  }

  lemma EvenBelow(j: nat, n: nat)
    requires n % 8 == 0 && j < n
    ensures (j - j % 2) % 2 == 0 && j - j % 2 + 1 < n
  {
    var half, q := j / 2, n / 8;
    assert j - j % 2 == 2 * half && n == 8 * q && half < 4 * q;
  }

  /** A change of one byte is a change of its word, and never one between 0 and 0xFFFF. */
  lemma ByteAsWord(s: Str, j: nat, i: nat, b: Byte)
    requires i <= j <= i + 1 < |s| && b != s[j]
    ensures var t := s[j := b];
            && t == PutWord(s, i, WordAt(t, i)) && WordAt(t, i) != WordAt(s, i)
            && !(WordAt(t, i) == 0 && WordAt(s, i) == 0xFFFF) && !(WordAt(t, i) == 0xFFFF && WordAt(s, i) == 0)
  {
    var t := s[j := b];
    JoinValue(t[i], t[i + 1]);
    JoinValue(s[i], s[i + 1]);
    hide Raise;
    SplitJoin(t[i], t[i + 1]);
    assert PutWord(s, i, WordAt(t, i)) == s[i := t[i]][i + 1 := t[i + 1]];
    assert s[i := t[i]][i + 1 := t[i + 1]] == t;
  }

  // ---------------------------------------------------------------- CMAC

  /** Appending parameters of type HIP_MAC_3 or above does not change the CMAC. */
  lemma {:induction false} CmacIgnoresMacs(c: Suite, key: Str, p: Packet, extra: seq<HipParam>)
    requires Printable(Covered(p.params))
    requires forall i :: 0 <= i < |extra| ==> extra[i].Type() >= HIP_MAC_3
    ensures Printable(Covered(p.params + extra))
    ensures Cmac(c, key, p.(params := p.params + extra)) == Cmac(c, key, p)
  {
    hide Covered, Body, TotalLength, Printable, Header;
    CoveredIgnoresMacs(p.params, extra);
    HeaderIgnoresParams(p, p.params + extra, (TotalLength(Covered(p.params)) - 8) / 8 % 256);
  }

  lemma HeaderIgnoresParams(p: Packet, ps: seq<HipParam>, n: Byte)
    ensures Header(p.(params := ps), n, 0) == Header(p, n, 0)
  {
    hide Hi, Lo;
  }

  lemma {:induction false} CoveredIgnoresMacs(ps: seq<HipParam>, extra: seq<HipParam>)
    requires forall i :: 0 <= i < |extra| ==> extra[i].Type() >= HIP_MAC_3
    ensures Covered(ps + extra) == Covered(ps)
  {
    hide HipParam.Type;
    if extra == [] {
      assert ps + extra == ps;
    } else {
      var n := |extra| - 1;
      assert (ps + extra)[..|ps| + n] == ps + extra[..n];
      CoveredIgnoresMacs(ps, extra[..n]);
    }
  }

  /** The packet with its own MAC appended, as the handlers send it. */
  function Signed(c: Suite, key: Str, p: Packet): Packet
    requires Printable(p.params)
  {
    p.(params := p.params + [HipMac3(Cmac(c, key, p))])
  }

  /** A signed packet verifies under the same key exactly when the packet carried no
      HIP_MAC_3 before, or its first one already was the right one. */
  lemma SignVerify(c: Suite, key: Str, p: Packet)
    requires Printable(p.params)
    ensures Printable(Signed(c, key, p).params)
    ensures Verifies(c, key, Signed(c, key, p)) <==>
            First(p.params, HIP_MAC_3).None? || MacData(p.params) == Cmac(c, key, p)
  {
    hide Cmac, First, Covered, Verifies, HipParam.Printable, HipParam.Type, Checkable, MacData;
    var mac := HipMac3(Cmac(c, key, p));
    MacIsPrintable(mac);
    CmacIgnoresMacs(c, key, p, [mac]);
    FirstOfAppend(p.params, mac, HIP_MAC_3);
    VerifiesIff(c, key, p, mac, Signed(c, key, p));
  }

  lemma MacIsPrintable(mac: HipParam)
    requires mac.HipMac3? && |mac.data| == BLOCK
    ensures mac.Printable() && mac.Type() == HIP_MAC_3
  {
  }

  lemma VerifiesIff(c: Suite, key: Str, p: Packet, mac: HipParam, q: Packet)
    requires Printable(Covered(p.params)) && Printable(Covered(q.params)) && Cmac(c, key, q) == Cmac(c, key, p)
    requires mac.HipMac3? && mac.data == Cmac(c, key, p)
    requires First(q.params, HIP_MAC_3) ==
             if First(p.params, HIP_MAC_3).Some? then First(p.params, HIP_MAC_3) else Some(mac)
    ensures Verifies(c, key, q) <==> First(p.params, HIP_MAC_3).None? || MacData(p.params) == Cmac(c, key, p)
  {
    hide Cmac, First, Covered, Printable;
  }

  /** Sign, print, parse, verify: a packet without a MAC survives the whole trip. */
  lemma SignPrintParseVerify(c: Suite, key: Str, p: Packet)
    requires Printable(p.params) && First(p.params, HIP_MAC_3).None?
    requires 1 <= p.kind <= 4 && p.version < 16 && AllFaithful(p.params, 0)
    ensures var signed := Signed(c, key, p);
            && Printable(signed.params)
            && Unpack(ToBytes(signed)) == (Accepted, signed)
            && Verifies(c, key, signed)
  {
    hide Verifies, Checkable, Cmac, Covered, First, MacData, Unpack, ToBytes;
    SignVerify(c, key, p);
    SignedFaithful(c, key, p);
    UnpackPrinted(Signed(c, key, p));
  }

  lemma SignedFaithful(c: Suite, key: Str, p: Packet)
    requires Printable(p.params) && AllFaithful(p.params, 0)
    ensures AllFaithful(Signed(c, key, p).params, 0)
  {
    hide Cmac;
  }
}
