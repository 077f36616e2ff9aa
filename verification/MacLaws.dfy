/** What the CMAC of a packet covers: the bytes fed to it determine the header fields and the
    parameters below HIP_MAC_3, and nothing else enters. */
module MacLaws {
  import opened Bytes
  import opened Crypto
  import opened Parameters
  import opened Packets
  import opened PacketLaws

  // ---------------------------------------------------------------- the covered list

  /** Covering keeps the order and drops whole parameters, those of type HIP_MAC_3 and up. */
  lemma {:induction false} CoveredConcat(a: seq<HipParam>, b: seq<HipParam>)
    ensures Covered(a + b) == Covered(a) + Covered(b)
  {
    hide HipParam.Type, Covered;
    if b == [] {
      CoveredNone();
      assert a + b == a && Covered(a) + [] == Covered(a);
    } else {
      var n := |b| - 1;
      var front, last := b[..n], b[n];
      CoveredConcat(a, front);
      CoveredAppend(front, last);
      CoveredAppend(a + front, last);
      assert b == front + [last] && a + b == (a + front) + [last];
      assert (Covered(a) + Covered(front)) + [last] == Covered(a) + (Covered(front) + [last]);
    }
  }

  lemma CoveredNone()
    ensures Covered([]) == []
  {
  }

  lemma CoveredAppend(ps: seq<HipParam>, q: HipParam)
    ensures Covered(ps + [q]) == if q.Type() < HIP_MAC_3 then Covered(ps) + [q] else Covered(ps)
  {
    hide HipParam.Type, HipParam.Printable;
    assert (ps + [q])[..|ps|] == ps;
  }

  lemma CoveredOne(q: HipParam)
    ensures Covered([q]) == if q.Type() < HIP_MAC_3 then [q] else []
  {
    hide HipParam.Type;
    assert [q][..0] == [] && Covered([]) == [];
  }

  // ---------------------------------------------------------------- what the bytes determine

  /** The header fields that are fed to the CMAC. */
  predicate SameHeader(p: Packet, q: Packet) {
    && p.nextHdr == q.nextHdr && p.kind % 128 == q.kind % 128 && p.version % 16 == q.version % 16
    && p.ctrls == q.ctrls && p.senderHit == q.senderHit && p.receiverHit == q.receiverHit
  }

  /** Two packets have the same bytes under the MAC exactly when these header fields agree
      and the covered parameters print alike. */
  lemma CmacInputIff(p: Packet, q: Packet)
    requires Printable(Covered(p.params)) && Printable(Covered(q.params))
    ensures CmacInput(p) == CmacInput(q) <==>
            SameHeader(p, q) && Body(Covered(p.params)) == Body(Covered(q.params))
  {
    InputParts(p);
    InputParts(q);
    var a, b := Body(Covered(p.params)), Body(Covered(q.params));
    HeaderIff(p, q, LengthField(|a|), LengthField(|b|));
    hide CmacInput, Header, Body, Covered, Printable, TotalLength, SameHeader, LengthField;
    InputsIff(Header(p, LengthField(|a|), 0), a, Header(q, LengthField(|b|), 0), b, SameHeader(p, q),
              LengthField(|a|) == LengthField(|b|));
  }

  /** Byte 1 of what is fed for covered parameters of `n` bytes. */
  function LengthField(n: nat): Byte { (n - 8) / 8 % 256 }

  lemma InputParts(p: Packet)
    requires Printable(Covered(p.params))
    ensures var b := Body(Covered(p.params)); CmacInput(p) == Header(p, LengthField(|b|), 0) + b
  {
    hide Header, Body, Covered, Printable, TotalLength;
  }

  lemma InputsIff(h: Str, b: Str, h': Str, b': Str, same: bool, alike: bool)
    requires |h| == |h'| && (h == h' <==> same && alike) && (|b| == |b'| ==> alike)
    ensures h + b == h' + b' <==> same && b == b'
  {
    ConcatIff(h, b, h', b');
  }

  lemma ConcatIff(a: Str, b: Str, a': Str, b': Str)
    requires |a| == |a'|
    ensures a + b == a' + b' <==> a == a' && b == b'
  {
    assert (a + b)[..|a|] == a && (a' + b')[..|a|] == a' && (a + b)[|a|..] == b && (a' + b')[|a|..] == b';
  }

  lemma HeaderIff(p: Packet, q: Packet, n: Byte, m: Byte)
    ensures Header(p, n, 0) == Header(q, m, 0) <==> SameHeader(p, q) && n == m
  {
    HeaderParts(p, n, 0);
    HeaderParts(q, m, 0);
    LengthByte(p, n);
    LengthByte(q, m);
    VersionByte(p.version, q.version);
    HeaderSame(p, q, n);
    hide Header, Join;
  }

  lemma LengthByte(p: Packet, n: Byte)
    ensures Header(p, n, 0)[1] == n
  {
    hide Hi, Lo;
  }

  lemma VersionByte(v: Byte, w: Byte)
    ensures v % 16 == w % 16 ==> 16 * v % 256 == 16 * w % 256
  {
    LowVersion(v);
    LowVersion(w);
  }

  lemma HeaderSame(p: Packet, q: Packet, n: Byte)
    ensures SameHeader(p, q) && 16 * p.version % 256 == 16 * q.version % 256 ==> Header(p, n, 0) == Header(q, n, 0)
  {
    hide Hi, Lo;
  }

  /** And faithful parameters that print alike are the same list. */
  lemma CmacInputDetermines(p: Packet, q: Packet)
    requires Printable(Covered(p.params)) && Printable(Covered(q.params))
    requires AllFaithful(Covered(p.params), p.kind % 128) && AllFaithful(Covered(q.params), q.kind % 128)
    ensures CmacInput(p) == CmacInput(q) <==> SameHeader(p, q) && Covered(p.params) == Covered(q.params)
  {
    CmacInputIff(p, q);
    hide Covered, Body, CmacInput, AllFaithful;
    if SameHeader(p, q) && Body(Covered(p.params)) == Body(Covered(q.params)) {
      BodyInjective(Covered(p.params), Covered(q.params), p.kind % 128);
    }
  }

  lemma BodyInjective(ps: seq<HipParam>, qs: seq<HipParam>, b2: Byte)
    requires Printable(ps) && Printable(qs) && Body(ps) == Body(qs)
    requires AllFaithful(ps, b2) && AllFaithful(qs, b2)
    ensures ps == qs
  {
    hide Occurs, Body, ParseFrom, HipParam.Printable, HipParam.Faithful, HipParam.Length;
    var s := Placed(b2, Body(ps));
    ParsePrinted(s, PACKET_HEADER, ps);
    ParsePrinted(s, PACKET_HEADER, qs);
  }

  /** Some packet whose third byte is `b2` and whose parameters are `body`. */
  function Placed(b2: Byte, body: Str): (s: Str)
    ensures |s| == PACKET_HEADER + |body| && s[2] == b2 && Occurs(s, PACKET_HEADER, body)
  {
    Zeros(PACKET_HEADER)[2 := b2] + body
  }

  // ---------------------------------------------------------------- tampering

  /** A packet that verified, changed in any way that keeps its MAC: it verifies exactly when
      no header field under the MAC was changed and the covered parameters still print alike,
      unless the MAC happens to be the same for both. */
  lemma TamperedVerifiesIff(c: Suite, key: Str, p: Packet, q: Packet)
    requires Checkable(p) && Verifies(c, key, p)
    requires Checkable(q) && First(q.params, HIP_MAC_3) == First(p.params, HIP_MAC_3)
    requires ToldApart(c, key, CmacInput(p), CmacInput(q))
    ensures Verifies(c, key, q) <==>
            SameHeader(p, q) && Body(Covered(p.params)) == Body(Covered(q.params))
  {
    CmacInputIff(p, q);
    hide CmacInput, First, Covered, Body, SameHeader, Printable;
  }

  /** One covered parameter of a signed packet replaced by another that prints differently,
      with the MAC kept. */
  lemma ReplacedFails(c: Suite, key: Str, p: Packet, i: nat, q: HipParam)
    requires Printable(p.params) && Checkable(p) && Verifies(c, key, p) && i < |p.params|
    requires p.params[i].Type() < HIP_MAC_3 && q.Type() < HIP_MAC_3 && q.Printable()
    requires q.ToBytes() != p.params[i].ToBytes()
    ensures var t := p.(params := p.params[i := q]);
            && Printable(t.params) && Checkable(t)
            && (ToldApart(c, key, CmacInput(p), CmacInput(t)) ==> !Verifies(c, key, t))
  {
    var t := p.(params := p.params[i := q]);
    FirstReplaced(p.params, i, q);
    ReplacedBody(p.params, i, q);
    hide CmacInput, First, Covered, Body, HipParam.Printable, HipParam.Type, HipParam.ToBytes, Verifies, ToldApart;
    if ToldApart(c, key, CmacInput(p), CmacInput(t)) { TamperedVerifiesIff(c, key, p, t); }
  }

  lemma {:induction false} FirstReplaced(ps: seq<HipParam>, i: nat, q: HipParam)
    requires i < |ps| && ps[i].Type() != HIP_MAC_3 && q.Type() != HIP_MAC_3
    ensures First(ps[i := q], HIP_MAC_3) == First(ps, HIP_MAC_3)
  {
    hide HipParam.Type;
    if i == 0 {
      assert ps[i := q][1..] == ps[1..];
    } else {
      assert ps[i := q][1..] == ps[1..][i - 1 := q];
      FirstReplaced(ps[1..], i - 1, q);
    }
  }

  lemma ReplacedBody(ps: seq<HipParam>, i: nat, q: HipParam)
    requires Printable(ps) && i < |ps| && q.Printable()
    requires ps[i].Type() < HIP_MAC_3 && q.Type() < HIP_MAC_3 && q.ToBytes() != ps[i].ToBytes()
    ensures Printable(ps[i := q]) && Body(Covered(ps[i := q])) != Body(Covered(ps))
  {
    var a, b := Covered(ps[..i]), Covered(ps[i + 1..]);
    hide HipParam.Type, HipParam.ToBytes, HipParam.Printable, Covered, Body;
    Around(ps, i, q);
    SplitAround(ps[..i], ps[i], ps[i + 1..]);
    SplitAround(ps[..i], q, ps[i + 1..]);
    Cancel(Body(a), ps[i].ToBytes(), q.ToBytes(), Body(b));
  }

  lemma Around(ps: seq<HipParam>, i: nat, q: HipParam)
    requires i < |ps|
    ensures ps == ps[..i] + [ps[i]] + ps[i + 1..] && ps[i := q] == ps[..i] + [q] + ps[i + 1..]
  {
  }

  lemma SplitAround(a: seq<HipParam>, q: HipParam, b: seq<HipParam>)
    requires Printable(a) && Printable(b) && q.Printable() && q.Type() < HIP_MAC_3
    ensures Printable(a + [q] + b)
    ensures Body(Covered(a + [q] + b)) == Body(Covered(a)) + q.ToBytes() + Body(Covered(b))
  {
    hide HipParam.Type, HipParam.ToBytes, HipParam.Printable, Covered, Body;
    CoveredConcat(a + [q], b);
    CoveredConcat(a, [q]);
    CoveredOne(q);
    BodyConcat(Covered(a) + [q], Covered(b));
    BodyConcat(Covered(a), [q]);
    BodyOne(q);
  }

  lemma {:induction false} BodyConcat(a: seq<HipParam>, b: seq<HipParam>)
    requires Printable(a) && Printable(b)
    ensures Printable(a + b) && Body(a + b) == Body(a) + Body(b)
  {
    hide HipParam.ToBytes, HipParam.Printable, HipParam.Length;
    if b == [] {
      assert a + b == a && Body(b) == [];
    } else {
      var n := |b| - 1;
      assert (a + b)[..|a| + n] == a + b[..n] && (a + b)[|a| + n] == b[n];
      BodyConcat(a, b[..n]);
      Regroup(Body(a), Body(b[..n]), b[n].ToBytes());
    }
  }

  lemma BodyOne(q: HipParam)
    requires q.Printable()
    ensures Body([q]) == q.ToBytes()
  {
    hide HipParam.ToBytes, HipParam.Printable, HipParam.Length;
    assert [q][..0] == [] && Body([]) == [] && [] + q.ToBytes() == q.ToBytes();
  }

  lemma Cancel(a: Str, x: Str, y: Str, b: Str)
    ensures a + x + b == a + y + b ==> x == y
  {
    if a + x + b == a + y + b {
      assert (a + x + b)[|a|..|a| + |x|] == x && (a + y + b)[|a|..|a| + |y|] == y;
      assert |a + x + b| == |a + y + b|;
    }
  }

  // ---------------------------------------------------------------- an example

  /** Primitives with the laws whose MAC shows the first payload byte of what it is fed. */
  function Showing(): Suite {
    Toy().(cmac := (key: Str, fed: Str) => [ByteAt(fed, 44)] + Zeros(15))
  }

  function Offering(p: Packet, group: Byte): (q: Packet)
    ensures Printable(q.params)
  {
    p.(params := [DhGroupList([group])])
  }

  function WithGroup(p: Packet, group: Byte): Packet
    requires p.params != []
  {
    p.(params := p.params[0 := DhGroupList([group])])
  }

  /** With them, a signed packet that offers a group does not verify once another group is
      written in its place. */
  lemma GroupListProtected(p: Packet, key: Str, a: Byte, b: Byte)
    requires a != b
    ensures Showing().Lawful()
    ensures var signed := Signed(Showing(), key, Offering(p, a));
            && Checkable(signed) && Verifies(Showing(), key, signed)
            && Checkable(WithGroup(signed, b)) && !Verifies(Showing(), key, WithGroup(signed, b))
  {
    hide Verifies, Covered, CmacInput, Cmac, Showing, Checkable, First, HipParam.Printable, HipParam.Type;
    var c, offer := Showing(), Offering(p, a);
    ShowingIsLawful();
    NoMacOffered(p, a);
    SignVerify(c, key, offer);
    var mac := HipMac3(Cmac(c, key, offer));
    MacIsPrintable(mac);
    var signed := Signed(c, key, offer);
    assert signed == p.(params := [DhGroupList([a]), mac]);
    assert WithGroup(signed, b) == p.(params := [DhGroupList([b]), mac]);
    OfferInput(p, a, mac);
    OfferInput(p, b, mac);
    OfferBytes(a);
    OfferBytes(b);
    SignedChecks(signed);
    ShowsByte(key, CmacInput(signed), CmacInput(WithGroup(signed, b)));
    ReplacedFails(c, key, signed, 0, DhGroupList([b]));
  }

  lemma ShowingIsLawful()
    ensures Showing().Lawful()
  {
    ToyIsLawful();
  }

  lemma ShowsByte(key: Str, fed: Str, other: Str)
    requires |fed| > 44 && |other| > 44 && fed[44] != other[44]
    ensures ToldApart(Showing(), key, fed, other)
  {
    assert ([fed[44]] + Zeros(15))[0] == fed[44] && ([other[44]] + Zeros(15))[0] == other[44];
    assert Showing().cmac(key, fed) == [fed[44]] + Zeros(15);
    assert Showing().cmac(key, other) == [other[44]] + Zeros(15);
    hide Toy;
  }

  lemma SignedChecks(p: Packet)
    requires Printable(p.params)
    ensures Checkable(p)
  {
    hide HipParam.Printable, First, HipParam.Type;
  }

  lemma NoMacOffered(p: Packet, group: Byte)
    ensures First(Offering(p, group).params, HIP_MAC_3).None?
  {
  }

  lemma OfferInput(p: Packet, group: Byte, mac: HipParam)
    requires mac.Type() == HIP_MAC_3
    ensures var q := p.(params := [DhGroupList([group]), mac]);
            Printable(Covered(q.params)) && |CmacInput(q)| > 44 && CmacInput(q)[44] == group
  {
    var q, offer := p.(params := [DhGroupList([group]), mac]), DhGroupList([group]);
    OfferBytes(group);
    BodyOne(offer);
    OnlyOffer(offer, mac);
    hide Header, Covered, Body, HipParam.ToBytes, HipParam.Printable;
  }

  lemma OnlyOffer(offer: HipParam, mac: HipParam)
    requires offer.Type() < HIP_MAC_3 && mac.Type() == HIP_MAC_3
    ensures Covered([offer, mac]) == [offer]
  {
    hide Covered, HipParam.Type;
    CoveredOne(offer);
    CoveredOne(mac);
    CoveredConcat([offer], [mac]);
    assert [offer, mac] == [offer] + [mac];
  }

  lemma OfferBytes(group: Byte)
    ensures var q := DhGroupList([group]);
            q.Printable() && q.Type() < HIP_MAC_3 && |q.ToBytes()| == 8 && q.ToBytes()[4] == group
  {
    hide Hi, Lo;
  }
}
