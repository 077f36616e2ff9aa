/** `MHipPacket`: serialising, parsing, and the CMAC over the parameters. */
module Packets {
  import opened Bytes
  import opened Checksum
  import opened Crypto
  import opened Parameters

  const PACKET_HEADER := 40

  type Hit = s: Str | |s| == 16 witness Zeros(16)

  datatype Packet = Packet(nextHdr: Byte, kind: Byte, version: Byte, ctrls: Word,
                           senderHit: Hit, receiverHit: Hit, params: seq<HipParam>)

  datatype Status = Accepted | Refused | OutOfBounds | Stalled
  datatype Parsed = Parsed(status: Status, params: seq<HipParam>)

  predicate Printable(ps: seq<HipParam>) {
    forall i :: 0 <= i < |ps| ==> ps[i].Printable()
  }

  function TotalLength(ps: seq<HipParam>): nat {
    if ps == [] then 0 else TotalLength(ps[..|ps| - 1]) + ps[|ps| - 1].Length()
  }

  function Body(ps: seq<HipParam>): (b: Str)
    requires Printable(ps)
    ensures |b| == TotalLength(ps)
  {
    if ps == [] then [] else Body(ps[..|ps| - 1]) + ps[|ps| - 1].ToBytes()
  }

  /** The 40 header bytes. The shifts of the source keep only the low bits. */
  function Header(p: Packet, lengthByte: Byte, checksum: Word): (h: Str)
    ensures |h| == PACKET_HEADER
  {
    [p.nextHdr, lengthByte, p.kind % 128, 16 * p.version % 256 + 1,
     Hi(checksum), Lo(checksum), Hi(p.ctrls), Lo(p.ctrls)] + p.senderHit + p.receiverHit
  }

  /** The packet with its checksum field still zero. */
  function Cleared(p: Packet): (s: Str)
    requires Printable(p.params)
    ensures |s| == PACKET_HEADER + TotalLength(p.params)
  {
    Header(p, (PACKET_HEADER + TotalLength(p.params) - 8) / 8 % 256, 0) + Body(p.params)
  }

  function ToBytes(p: Packet): (s: Str)
    requires Printable(p.params)
    ensures |s| == PACKET_HEADER + TotalLength(p.params)
  {
    PutWord(Cleared(p), 4, ChecksumOf(Cleared(p)))
  }

  /** The parse loop of `FromBytes` from offset `off`. A decoded length of 0 makes the
      loop append the same parameter for ever; one past the end makes the unsigned
      remainder wrap, and the next read leave the buffer. */
  function ParseFrom(s: Str, off: nat): Parsed
    requires off <= |s|
    decreases |s| - off
  {
    if off == |s| then Parsed(Accepted, [])
    else
      match Decode(s, off)
      case Rejected => Parsed(Refused, [])
      case Undefined => Parsed(OutOfBounds, [])
      case Ok(q) =>
        if q.Length() == 0 then Parsed(Stalled, [q])
        else if off + q.Length() > |s| then Parsed(OutOfBounds, [q])
        else
          var rest := ParseFrom(s, off + q.Length());
          Parsed(rest.status, [q] + rest.params)
  }

  /** What `FromBytes` makes of a packet object `p`: the status and the new fields. */
  function Received(p: Packet, s: Str): (Status, Packet)
    requires |s| >= PACKET_HEADER
  {
    if !ChecksumMatches(s) then (Refused, p)
    else
      var parsed := ParseFrom(PutWord(s, 4, 0), PACKET_HEADER);
      (parsed.status, Fields(p, s).(params := p.params + parsed.params))
  }

  /** The header fields that `FromBytes` sets. */
  function Fields(p: Packet, s: Str): Packet
    requires |s| >= PACKET_HEADER
  {
    Packet(s[0], p.kind, s[3] / 16, Join(s[6], s[7]), s[8..24], s[24..40], p.params)
  }

  /** `CHipPacketFactory::Create`: the kind comes from byte 2. */
  function Unpack(s: Str): (Status, Packet) {
    if |s| < PACKET_HEADER || s[2] % 128 !in {1, 2, 3, 4} then (Refused, Blank(0))
    else Received(Blank(s[2] % 128), s)
  }

  function Blank(kind: Byte): Packet {
    Packet(59, kind, 2, 0, Zeros(16), Zeros(16), [])
  }

  /** The C++ object: its fields are updated in place. */
  class HipPacket {
    var nextHdr: Byte
    var kind: Byte
    var version: Byte
    var ctrls: Word
    var senderHit: Hit
    var receiverHit: Hit
    var params: seq<HipParam>

    constructor (kind: Byte)
      ensures View() == Blank(kind)
    {
      this.kind := kind;
      nextHdr, version, ctrls := 59, 2, 0;
      senderHit, receiverHit := Zeros(16), Zeros(16);
      params := [];
    }

    function View(): Packet
      reads this
    {
      Packet(nextHdr, kind, version, ctrls, senderHit, receiverHit, params)
    }

    method SetHits(sender: Hit, receiver: Hit)
      modifies this`senderHit, this`receiverHit
      ensures View() == old(View()).(senderHit := sender, receiverHit := receiver)
    {
      senderHit, receiverHit := sender, receiver;
    }

    method AddParameter(p: HipParam)
      modifies this`params
      ensures View() == old(View()).(params := old(params) + [p])
    {
      params := params + [p];
    }

    /** Clears bytes 4 and 5 of its argument, checks the checksum, sets the fields and
        appends parameters until the bytes are used up. */
    method FromBytes(bytes: array<Byte>) returns (status: Status)
      requires bytes.Length >= PACKET_HEADER
      modifies this, bytes
      ensures bytes[..] == PutWord(old(bytes[..]), 4, 0)
      ensures (status, View()) == Received(old(View()), old(bytes[..]))
      ensures !ChecksumMatches(old(bytes[..])) ==> status == Refused && View() == old(View())
    {
      ghost var given := bytes[..];
      var stored := Join(bytes[4], bytes[5]);
      bytes[4], bytes[5] := 0, 0;
      assert bytes[..] == PutWord(given, 4, 0);
      var computed := CalcChecksum(bytes[..]);
      if stored != computed {
        return Refused;
      }
      nextHdr := bytes[0];
      version := bytes[3] / 16;
      ctrls := Join(bytes[6], bytes[7]);
      senderHit := bytes[8..24];
      receiverHit := bytes[24..40];
      assert View() == Fields(old(View()), given);
      status := ReadParameters(bytes);
    }

    /** The loop of `FromBytes`: decode at `leng` and advance by the decoded length. */
    method ReadParameters(bytes: array<Byte>) returns (status: Status)
      requires bytes.Length >= PACKET_HEADER
      modifies this`params
      ensures var parsed := ParseFrom(bytes[..], PACKET_HEADER);
              status == parsed.status && params == old(params) + parsed.params
    {
      hide Decode, HipParam.Length;
      var leng := PACKET_HEADER;
      ghost var s, whole := bytes[..], ParseFrom(bytes[..], PACKET_HEADER);
      while bytes.Length - leng > 0
        invariant PACKET_HEADER <= leng <= bytes.Length
        invariant old(params) + whole.params == params + ParseFrom(s, leng).params
        invariant whole.status == ParseFrom(s, leng).status
        decreases bytes.Length - leng
      {
        match Decode(bytes[..], leng) {
          case Rejected => return Refused;
          case Undefined => return OutOfBounds;
          case Ok(q) =>
            params := params + [q];
            if q.Length() == 0 {
              return Stalled;
            }
            if leng + q.Length() > bytes.Length {
              return OutOfBounds;
            }
            leng := leng + q.Length();
        }
      }
      status := Accepted;
    }

    method Length() returns (length: nat)
      ensures length == PACKET_HEADER + TotalLength(params)
    {
      hide HipParam.Length;
      length := PACKET_HEADER;
      for i := 0 to |params|
        invariant length == PACKET_HEADER + TotalLength(params[..i])
      {
        assert params[..i + 1][..i] == params[..i];
        length := length + params[i].Length();
      }
      assert params[..|params|] == params;
    }

    /** Builds the bytes by appending, then fills in the checksum. */
    method Serialise() returns (s: Str)
      requires Printable(params)
      ensures s == ToBytes(View())
    {
      hide HipParam.ToBytes, HipParam.Length, HipParam.Printable, Header, ChecksumOf;
      var length := Length();
      s := Header(View(), (length - 8) / 8 % 256, 0);
      s := AppendParameters(s);
      var checksum := CalcChecksum(s);
      s := s[4 := Hi(checksum)][5 := Lo(checksum)];
    }

    /** The loop of `ToBytes` that inserts each parameter at the end. */
    method AppendParameters(start: Str) returns (s: Str)
      requires Printable(params)
      ensures s == start + Body(params)
    {
      hide HipParam.ToBytes, HipParam.Length, HipParam.Printable;
      s := start;
      for i := 0 to |params|
        invariant s == start + Body(params[..i])
      {
        assert params[..i + 1][..i] == params[..i];
        var bytes := WriteParameter(params[i]);
        s := s + bytes[..];
      }
      assert params[..|params|] == params;
    }

    /** The first loop of `CalculateCmac`. */
    method CoveredLength() returns (length: nat)
      ensures length == TotalLength(Covered(params))
    {
      hide HipParam.ToBytes, HipParam.Type, HipParam.Length, HipParam.Size, Covered, TotalLength, Body, Printable;
      NothingCovered(params);
      length := 0;
      for i := 0 to |params|
        invariant length == TotalLength(Covered(params[..i]))
      {
        CoveredNext(params, i);
        if params[i].Type() >= HIP_MAC_3 { continue; }
        length := length + params[i].Length();
      }
    }

    /** The second loop: every covered parameter is fed to the CMAC context. */
    method FeedCovered(header: Str) returns (fed: Str)
      requires Printable(Covered(params))
      ensures fed == header + Body(Covered(params))
    {
      hide HipParam.ToBytes, HipParam.Type, HipParam.Length, HipParam.Printable;
      hide Covered, TotalLength, Body, Printable;
      NothingCovered(params);
      assert header + [] == header;
      fed := header;
      for i := 0 to |params|
        invariant Printable(Covered(params[..i]))
        invariant fed == header + Body(Covered(params[..i]))
      {
        CoveredPrefix(params, i + 1);
        CoveredNext(params, i);
        if params[i].Type() >= HIP_MAC_3 { continue; }
        var bytes := WriteParameter(params[i]);
        Regroup(header, Body(Covered(params[..i])), bytes[..]);
        fed := fed + bytes[..];
      }
    }

    method CalculateCmac(c: Suite, key: Str) returns (mac: Block)
      requires Printable(Covered(params))
      ensures mac == Cmac(c, key, View())
    {
      hide Header, Body, Covered, TotalLength, HipParam.Printable;
      var length: int := CoveredLength();
      var fed := FeedCovered(Header(View(), (length - 8) / 8 % 256, 0));
      mac := c.cmac(key, fed);
    }

    method GetParameter(kind: Word) returns (r: Option<HipParam>)
      ensures r == First(params, kind)
    {
      for i := 0 to |params|
        invariant First(params, kind) == First(params[i..], kind)
      {
        if params[i].Type() == kind { return Some(params[i]); }
        assert params[i..][1..] == params[i + 1..];
      }
      r := None;
    }

    method VerifyCmac(c: Suite, key: Str) returns (ok: bool)
      requires Checkable(View())
      ensures ok == Verifies(c, key, View())
    {
      var mac := GetParameter(HIP_MAC_3);
      if mac.Some? {
        FirstHasType(params, HIP_MAC_3);
        var expected := CalculateCmac(c, key);
        return expected == mac.value.data;
      }
      ok := false;
    }
  }

  // ---------------------------------------------------------------- CMAC

  /** The parameters below HIP_MAC_3, which are the ones under the MAC. */
  function Covered(ps: seq<HipParam>): (qs: seq<HipParam>)
    ensures Printable(ps) ==> Printable(qs)
  {
    if ps == [] then []
    else
      var q := ps[|ps| - 1];
      if q.Type() >= HIP_MAC_3 then Covered(ps[..|ps| - 1]) else Covered(ps[..|ps| - 1]) + [q]
  }

  lemma CoveredStep(ps: seq<HipParam>, q: HipParam)
    ensures Covered(ps + [q]) == if q.Type() >= HIP_MAC_3 then Covered(ps) else Covered(ps) + [q]
    ensures Printable(Covered(ps + [q])) && q.Type() < HIP_MAC_3 ==> q.Printable()
    ensures Printable(Covered(ps + [q])) && Printable(Covered(ps)) ==>
              Body(Covered(ps + [q])) ==
                if q.Type() >= HIP_MAC_3 then Body(Covered(ps)) else Body(Covered(ps)) + q.ToBytes()
    ensures q.Type() < HIP_MAC_3 ==> TotalLength(Covered(ps + [q])) == TotalLength(Covered(ps)) + q.Length()
  {
    assert (ps + [q])[..|ps|] == ps;
    var qs := Covered(ps) + [q];
    assert qs[..|Covered(ps)|] == Covered(ps) && qs[|Covered(ps)|] == q;
    hide HipParam.ToBytes, HipParam.Type, HipParam.Length, HipParam.Printable;
  }

  /** The loops over the covered parameters begin with nothing and end with the list. */
  lemma NothingCovered(ps: seq<HipParam>)
    ensures Printable(Covered(ps[..0])) && Body(Covered(ps[..0])) == [] && TotalLength(Covered(ps[..0])) == 0
    ensures ps[..|ps|] == ps
  {
    assert ps[..0] == [] && Covered([]) == [];
    hide HipParam.ToBytes, HipParam.Length, HipParam.Printable;
  }

  /** `CoveredStep`, for the prefixes of a list. */
  lemma CoveredNext(ps: seq<HipParam>, i: nat)
    requires i < |ps|
    ensures ps[i].Type() < HIP_MAC_3 ==>
              TotalLength(Covered(ps[..i + 1])) == TotalLength(Covered(ps[..i])) + ps[i].Length()
    ensures ps[i].Type() >= HIP_MAC_3 ==> Covered(ps[..i + 1]) == Covered(ps[..i])
    ensures Printable(Covered(ps[..i + 1])) && Printable(Covered(ps[..i])) && ps[i].Type() < HIP_MAC_3 ==>
              ps[i].Printable() && Body(Covered(ps[..i + 1])) == Body(Covered(ps[..i])) + ps[i].ToBytes()
  {
    hide HipParam.ToBytes, HipParam.Type, HipParam.Length, HipParam.Printable, Covered, TotalLength, Body, Printable;
    assert ps[..i + 1] == ps[..i] + [ps[i]];
    CoveredStep(ps[..i], ps[i]);
  }

  lemma Regroup(a: Str, b: Str, c: Str)
    ensures (a + b) + c == a + (b + c)
  {
  }

  lemma {:induction false} CoveredPrefix(ps: seq<HipParam>, i: nat)
    requires i <= |ps| && Printable(Covered(ps))
    ensures Printable(Covered(ps[..i]))
  {
    hide HipParam.Type, HipParam.Printable;
    if i == |ps| {
      assert ps[..i] == ps;
    } else {
      var front := ps[..|ps| - 1];
      assert front[..i] == ps[..i];
      assert Printable(Covered(front)) by {
        assert forall k :: 0 <= k < |Covered(front)| ==> Covered(front)[k] == Covered(ps)[k];
      }
      CoveredPrefix(front, i);
    }
  }

  /** The bytes under the MAC. The length byte counts the covered parameters only, and
      the unsigned `tLength-8` of an uncovered packet wraps to give 255. */
  function CmacInput(p: Packet): Str
    requires Printable(Covered(p.params))
  {
    var qs := Covered(p.params);
    Header(p, (TotalLength(qs) - 8) / 8 % 256, 0) + Body(qs)
  }

  function Cmac(c: Suite, key: Str, p: Packet): Block
    requires Printable(Covered(p.params))
  {
    c.cmac(key, CmacInput(p))
  }

  function First(ps: seq<HipParam>, kind: Word): Option<HipParam> {
    if ps == [] then None else if ps[0].Type() == kind then Some(ps[0]) else First(ps[1..], kind)
  }

  lemma {:induction false} FirstHasType(ps: seq<HipParam>, kind: Word)
    ensures First(ps, kind).Some? ==> First(ps, kind).value.Type() == kind && First(ps, kind).value in ps
    ensures First(ps, kind).None? <==> forall q :: q in ps ==> q.Type() != kind
  {
    if ps != [] { FirstHasType(ps[1..], kind); }
  }

  lemma {:induction false} FirstOfAppend(ps: seq<HipParam>, q: HipParam, kind: Word)
    ensures First(ps + [q], kind) ==
            if First(ps, kind).Some? then First(ps, kind) else if q.Type() == kind then Some(q) else None
  {
    if ps == [] {
      assert (ps + [q])[1..] == [];
    } else {
      assert (ps + [q])[1..] == ps[1..] + [q];
      FirstOfAppend(ps[1..], q, kind);
    }
  }

  function MacData(ps: seq<HipParam>): Str
    requires First(ps, HIP_MAC_3).Some?
  {
    FirstHasType(ps, HIP_MAC_3);
    First(ps, HIP_MAC_3).value.data
  }

  /** Without a MAC nothing is printed to check it. */
  predicate Checkable(p: Packet) {
    First(p.params, HIP_MAC_3).Some? ==> Printable(Covered(p.params))
  }

  predicate Verifies(c: Suite, key: Str, p: Packet)
    requires Checkable(p)
  {
    First(p.params, HIP_MAC_3).Some? && MacData(p.params) == Cmac(c, key, p)
  }
}
