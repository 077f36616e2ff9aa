/** HIP parameters: the `MHipParameter` hierarchy, its TLV framing, and
    `CHipParamFactory::Create`. */
module Parameters {
  import opened Bytes

  const R1_COUNTER: Word := 128
  const PUZZLE: Word := 257
  const SOLUTION: Word := 321
  const HIP_CIPHER: Word := 579
  const ENCRYPTED: Word := 641
  const ENCRYPTED_KEY: Word := 643
  const HOST_ID: Word := 705
  const HIT_SUITE_LIST: Word := 715
  const DH_GROUP_LIST: Word := 2151
  const HIP_MAC_3: Word := 61507
  const ECHO_RES_USIG: Word := 63425
  const ECHO_REQ_USIG: Word := 63661

  const HEADER := 4
  const ALGORITHM_ECDH: Byte := 11
  const NO_DOMAIN: Nibble := 0

  type Nibble = x: int | 0 <= x < 16

  datatype HipParam =
    | R1Counter(counter: Str)
    | Puzzle(complexity: Byte, lifetime: Byte, opaqueData: Word, randomI: Str)
    | Solution(complexity: Byte, opaqueData: Word, randomI: Str, solutionJ: Str)
    | Cipher(cipher: Byte)
    | Encrypted(iv: Str, data: Str)
    | EncryptedKey(data: Str)
    | HostId(diType: Nibble, hostId: Str, domainId: Str)
    | HitSuiteList(list: Str)
    | DhGroupList(list: Str)
    | HipMac3(data: Str)
    | EchoResponse(data: Str)
    | EchoRequest(data: Str)
  {
    function Type(): Word {
      match this
      case R1Counter(_) => R1_COUNTER
      case Puzzle(_, _, _, _) => PUZZLE
      case Solution(_, _, _, _) => SOLUTION
      case Cipher(_) => HIP_CIPHER
      case Encrypted(_, _) => ENCRYPTED
      case EncryptedKey(_) => ENCRYPTED_KEY
      case HostId(_, _, _) => HOST_ID
      case HitSuiteList(_) => HIT_SUITE_LIST
      case DhGroupList(_) => DH_GROUP_LIST
      case HipMac3(_) => HIP_MAC_3
      case EchoResponse(_) => ECHO_RES_USIG
      case EchoRequest(_) => ECHO_REQ_USIG
    }

    /** `Size()` before the cut to 16 bits. */
    function Size(): nat {
      match this
      case R1Counter(_) => 8
      case Puzzle(_, _, _, i) => 4 + |i|
      case Solution(_, _, i, j) => 4 + |i| + |j|
      case Cipher(_) => 1
      case Encrypted(v, d) => |v| + |d|
      case EncryptedKey(d) => |d|
      case HostId(_, h, d) => 6 + |h| + |d|
      case HitSuiteList(l) => |l|
      case DhGroupList(l) => |l|
      case HipMac3(d) => |d|
      case EchoResponse(d) => |d|
      case EchoRequest(d) => |d|
    }

    /** `Length()`: header, payload and padding. */
    function Length(): Word { Padded(Size()) }

    /** What `ToBytes` demands: a payload (it takes the address of its first byte), a
        length that fits, and the fixed-size fields of their proper size. */
    predicate Printable() {
      && 1 <= Size() <= 65524
      && (R1Counter? ==> |counter| == 8)
      && (Encrypted? ==> |iv| == 8)
    }

    function GetBytes(): (b: Str)
      requires Printable()
      ensures |b| == Size()
    {
      match this
      case R1Counter(c) => c
      case Puzzle(k, t, o, i) => [k, t, Hi(o), Lo(o)] + i
      case Solution(k, o, i, j) => [k, 0, Hi(o), Lo(o)] + (i + j)
      case Cipher(c) => [c]
      case Encrypted(v, d) => v + d
      case EncryptedKey(d) => d
      case HostId(t, h, d) =>
        [Hi(|h|), Lo(|h|), ThirdByte(t, |d|), Lo(|d|)] + ([0, ALGORITHM_ECDH] + (h + d))
      case HitSuiteList(l) => l
      case DhGroupList(l) => l
      case HipMac3(d) => d
      case EchoResponse(d) => d
      case EchoRequest(d) => d
    }

    /** The bytes of the parameter on the wire. */
    function ToBytes(): (b: Str)
      requires Printable()
      ensures |b| == Length()
    {
      Tlv(Type(), Size(), GetBytes())
    }

    /** The parameters that `FromBytes` gives back inside a packet whose third byte is
        `b2`: R1_COUNTER, ENCRYPTED and ECHO_* decode the whole packet instead of their
        payload, SOLUTION splits in half, a suite list holds one entry, and HOST_ID
        takes its DI-type from byte 2 of the packet. */
    predicate Faithful(b2: Byte) {
      match this
      case R1Counter(_) => false
      case Encrypted(_, _) => false
      case EchoResponse(_) => false
      case EchoRequest(_) => false
      case Solution(_, _, i, j) => |j| == |i| || |j| == |i| + 1
      case HitSuiteList(l) => |l| == 1
      case HostId(t, _, _) => t == b2 / 16
      case _ => true
    }
  }

  /** The DI-type above the high four bits of the 12-bit domain length. */
  function ThirdByte(t: Nibble, n: nat): Byte { 16 * t + n / 256 % 16 }

  /** Header plus payload of `size` bytes, rounded up to 8, in 16-bit arithmetic. */
  function Padded(size: nat): Word {
    var t := (HEADER + size) % 0x1_0000;
    (t + if t % 8 != 0 then 8 - t % 8 else 0) % 0x1_0000
  }

  /** Type, length, payload, and zeros up to the padded length. */
  function Tlv(kind: Word, size: Word, payload: Str): (b: Str)
    requires 1 <= size == |payload| <= 65524
    ensures |b| == Padded(size) && |b| % 8 == 0 && |b| >= HEADER + size
  {
    [Hi(kind), Lo(kind), Hi(size), Lo(size)] + (payload + Zeros(Padded(size) - HEADER - size))
  }

  /** A printed parameter begins with its type and size, then has its payload, and is filled
      up with zeros to the next multiple of 8. */
  lemma PrintedTlv(p: HipParam)
    requires p.Printable()
    ensures var b, n := p.ToBytes(), p.Size();
            && |b| % 8 == 0 && HEADER + n <= |b| < HEADER + n + 8
            && 256 * b[0] as int + b[1] == p.Type() && 256 * b[2] as int + b[3] == n
            && b[HEADER..HEADER + n] == p.GetBytes()
            && forall i :: HEADER + n <= i < |b| ==> b[i] == 0
  {
    hide HipParam.GetBytes, HipParam.Type, HipParam.Size, Hi, Lo, Padded, Tlv;
    HiLo(p.Type());
    HiLo(p.Size());
    PaddedNext(p.Size());
    TlvParts(p.Type(), p.Size(), p.GetBytes());
  }

  lemma PaddedNext(size: nat)
    requires size <= 65524
    ensures Padded(size) % 8 == 0 && HEADER + size <= Padded(size) < HEADER + size + 8
  {
  }

  lemma TlvParts(kind: Word, size: Word, payload: Str)
    requires 1 <= size == |payload| <= 65524
    ensures var b := Tlv(kind, size, payload);
            && b[0] == Hi(kind) && b[1] == Lo(kind) && b[2] == Hi(size) && b[3] == Lo(size)
            && b[HEADER..HEADER + size] == payload
            && forall i :: HEADER + size <= i < |b| ==> b[i] == 0
  {
    hide Hi, Lo;
    PaddedNext(size);
    hide Padded;
  }

  /** The structured payloads as sections 5.2.4, 5.2.5 and 5.2.9 of RFC 7401 lay them out:
      fixed fields first, two-byte fields with the high byte first. */
  predicate LaidOut(p: HipParam, b: Str) {
    match p
    case Puzzle(k, t, o, i) =>
      |b| == 4 + |i| && b[0] == k && b[1] == t && 256 * b[2] as int + b[3] == o && b[4..] == i
    case Solution(k, o, i, j) =>
      && |b| == 4 + |i| + |j| && b[0] == k && b[1] == 0 && 256 * b[2] as int + b[3] == o
      && b[4..4 + |i|] == i && b[4 + |i|..] == j
    case HostId(t, h, d) =>
      && |b| == 6 + |h| + |d| && 256 * b[0] as int + b[1] == |h|
      && b[2] == 16 * t + |d| / 256 % 16 && b[3] as int == |d| % 256
      && b[4] == 0 && b[5] == ALGORITHM_ECDH && b[6..6 + |h|] == h && b[6 + |h|..] == d
    case _ => true
  }

  lemma Layout(p: HipParam)
    requires p.Printable()
    ensures LaidOut(p, p.GetBytes())
  {
    hide Hi, Lo, Padded;
    if p.Puzzle? {
      HiLo(p.opaqueData);
      Front4(p.complexity, p.lifetime, Hi(p.opaqueData), Lo(p.opaqueData), p.randomI);
    } else if p.Solution? {
      HiLo(p.opaqueData);
      Front4(p.complexity, 0, Hi(p.opaqueData), Lo(p.opaqueData), p.randomI + p.solutionJ);
      Back(p.GetBytes(), 4, p.randomI, p.solutionJ);
    } else if p.HostId? {
      hide HipParam.GetBytes, LaidOut, HipParam.Printable;
      HostIdLayout(p);
    }
  }

  lemma HostIdLayout(p: HipParam)
    requires p.Printable() && p.HostId?
    ensures LaidOut(p, p.GetBytes())
  {
    hide Hi, Lo, Padded;
    HiLo(|p.hostId|);
    HiLo(|p.domainId|);
    var front: Str := [0, ALGORITHM_ECDH];
    var rest := front + (p.hostId + p.domainId);
    var b := p.GetBytes();
    Front4(Hi(|p.hostId|), Lo(|p.hostId|), ThirdByte(p.diType, |p.domainId|), Lo(|p.domainId|), rest);
    assert b[4..] == rest && b[4] == rest[0] && b[5] == rest[1];
    assert rest[2..] == p.hostId + p.domainId && b[6..] == rest[2..];
    hide HipParam.GetBytes;
    Back(b, 6, p.hostId, p.domainId);
  }

  lemma Front4(a: Byte, b: Byte, c: Byte, d: Byte, rest: Str)
    ensures var s := [a, b, c, d] + rest; s[0] == a && s[1] == b && s[2] == c && s[3] == d && s[4..] == rest
  {
  }

  lemma Back(s: Str, n: nat, x: Str, y: Str)
    requires n <= |s| && s[n..] == x + y
    ensures |s| == n + |x| + |y| && s[n..n + |x|] == x && s[n + |x|..] == y
  {
    assert (x + y)[..|x|] == x && (x + y)[|x|..] == y;
    assert s[n..][..|x|] == s[n..n + |x|] && s[n..][|x|..] == s[n + |x|..];
  }

  /** `std::copy` into an array. */
  method Copy(src: Str, dst: array<Byte>, at: nat)
    requires at + |src| <= dst.Length
    modifies dst
    ensures dst[..] == old(dst[..at]) + src + old(dst[at + |src|..])
  {
    for i := 0 to |src|
      invariant forall k :: 0 <= k < dst.Length ==>
                  dst[k] == if at <= k < at + i then src[k - at] else old(dst[k])
    {
      dst[at + i] := src[i];
    }
  }

  /** `MHipParameter::ToBytes`: a zeroed array of the padded length is filled in place. */
  method WriteTlv(kind: Word, size: Word, payload: Str) returns (bytes: array<Byte>)
    requires 1 <= size == |payload| <= 65524
    ensures fresh(bytes) && bytes[..] == Tlv(kind, size, payload)
  {
    assert Padded(size) >= HEADER + size;
    hide Padded, Hi, Lo;
    bytes := new Byte[Padded(size)](_ => 0);
    bytes[0], bytes[1] := Hi(kind), Lo(kind);
    bytes[2], bytes[3] := Hi(size), Lo(size);
    assert forall k :: HEADER <= k < bytes.Length ==> bytes[k] == 0;
    assert bytes[..HEADER] == [Hi(kind), Lo(kind), Hi(size), Lo(size)];
    assert bytes[HEADER + size..] == Zeros(Padded(size) - HEADER - size);
    Copy(payload, bytes, HEADER);
  }

  method WriteParameter(p: HipParam) returns (bytes: array<Byte>)
    requires p.Printable()
    ensures fresh(bytes) && bytes[..] == p.ToBytes()
  {
    hide HipParam.GetBytes, HipParam.Type, Tlv;
    bytes := WriteTlv(p.Type(), p.Size(), p.GetBytes());
  }

  // ---------------------------------------------------------------- decoding

  /** Outcome of decoding one parameter. `Undefined` stands for a read outside the
      buffer or a vector filled from a reversed range. */
  datatype Decoded = Ok(param: HipParam) | Rejected | Undefined

  /** `FromBytes` and `Create` at offset `off` of the packet `s`. */
  function Decode(s: Str, off: nat): Decoded
    requires off <= |s|
  {
    if |s| - off < HEADER then Rejected
    else
      var size := Join(s[off + 2], s[off + 3]);
      if Padded(size) > |s| - off then Rejected
      else SetBytes(Join(s[off], s[off + 1]), s, off + HEADER, size)
  }

  /** The `SetBytes` of the class that `kind` selects, on `size` bytes at `off`. */
  function SetBytes(kind: Word, s: Str, off: nat, size: Word): Decoded
    requires off <= |s|
  {
    var end := off + size;
    if kind == PUZZLE then SetPuzzle(s, off, size)
    else if kind == SOLUTION then SetSolution(s, off, size)
    else if kind == HIP_CIPHER then
      if size != 1 then Rejected
      else if end > |s| then Undefined
      else Ok(Cipher(s[off]))
    else if kind == ENCRYPTED_KEY then
      if end > |s| then Rejected else Ok(EncryptedKey(s[off..end]))
    else if kind == HOST_ID then SetHostId(s, off, size)
    else if kind == HIT_SUITE_LIST then
      if size != 1 then Rejected
      else if end > |s| then Undefined
      else Ok(HitSuiteList(s[off..end]))
    else if kind == DH_GROUP_LIST then
      if end > |s| then Undefined else Ok(DhGroupList(s[off..end]))
    else if kind == HIP_MAC_3 then
      if end > |s| then Rejected else Ok(HipMac3(s[off..end]))
    else if kind == R1_COUNTER then
      if |s| != 8 then Rejected else Ok(R1Counter(s))
    else if kind == ENCRYPTED || kind == ECHO_RES_USIG || kind == ECHO_REQ_USIG then
      Undefined  // takes the whole packet as payload, which then reaches past its end
    else Rejected
  }

  function SetPuzzle(s: Str, off: nat, size: Word): Decoded
    requires off <= |s|
  {
    if |s| - off < 4 || size < 4 then Rejected
    else if off + size > |s| then Undefined
    else Ok(Puzzle(s[off], s[off + 1], Join(s[off + 2], s[off + 3]), s[off + 4..off + size]))
  }

  /** The payload after the fixed bytes is split in the middle. */
  function SetSolution(s: Str, off: nat, size: Word): Decoded
    requires off <= |s|
  {
    if |s| - off < 4 || size < 4 then Rejected
    else if off + size > |s| then Undefined
    else
      var half := off + 4 + (size - 4) / 2;
      Ok(Solution(s[off], Join(s[off + 2], s[off + 3]), s[off + 4..half], s[half..off + size]))
  }

  /** Both lengths are checked against the whole packet; the domain takes what is left. */
  function SetHostId(s: Str, off: nat, size: Word): Decoded
    requires off <= |s|
  {
    if |s| - off < 6 then Rejected
    else
      var hostLen := Join(s[off], s[off + 1]);
      var domainLen := Join(s[off + 2] % 16, s[off + 3]);
      if 6 + hostLen + domainLen > |s| || Join(s[off + 4], s[off + 5]) != ALGORITHM_ECDH as Word then Rejected
      else if 6 + hostLen > size || off + size > |s| then Undefined
      else Ok(HostId(s[2] / 16, s[off + 6..off + 6 + hostLen], s[off + 6 + hostLen..off + size]))
  }

  lemma TlvAt(s: Str, off: nat, kind: Word, size: Word, payload: Str, padding: Str)
    requires Occurs(s, off, [Hi(kind), Lo(kind), Hi(size), Lo(size)] + (payload + padding))
    ensures off + HEADER <= |s|
    ensures Join(s[off], s[off + 1]) == kind && Join(s[off + 2], s[off + 3]) == size
    ensures Occurs(s, off + HEADER, payload)
  {
    hide Occurs, Hi, Lo;
    OccursConcat(s, off, [Hi(kind), Lo(kind), Hi(size), Lo(size)], payload + padding);
    OccursConcat(s, off + HEADER, payload, padding);
    Occurs4(s, off, Hi(kind), Lo(kind), Hi(size), Lo(size));
    JoinSplit(kind);
    JoinSplit(size);
  }

  lemma HeaderAt(s: Str, off: nat, p: HipParam)
    requires p.Printable() && Occurs(s, off, p.ToBytes())
    ensures off + HEADER <= |s|
    ensures Join(s[off], s[off + 1]) == p.Type() && Join(s[off + 2], s[off + 3]) == p.Size()
    ensures Occurs(s, off + HEADER, p.GetBytes())
  {
    hide HipParam.GetBytes, HipParam.Type, HipParam.Size, Padded, Occurs, Hi, Lo, Join;
    TlvAt(s, off, p.Type(), p.Size(), p.GetBytes(), Zeros(Padded(p.Size()) - HEADER - p.Size()));
  }

  lemma DecodeAt(s: Str, off: nat, p: HipParam)
    requires p.Printable() && Occurs(s, off, p.ToBytes())
    ensures off + HEADER + p.Size() <= |s|
    ensures Decode(s, off) == SetBytes(p.Type(), s, off + HEADER, p.Size())
  {
    HeaderAt(s, off, p);
    hide HipParam.GetBytes, HipParam.Type, HipParam.Size, HipParam.ToBytes, Padded, Join, SetBytes;
  }

  lemma PuzzlePayload(s: Str, o: nat, k: Byte, t: Byte, d: Word, i: Str)
    requires Occurs(s, o, [k, t, Hi(d), Lo(d)] + i) && 4 + |i| < 0x1_0000
    ensures SetPuzzle(s, o, 4 + |i|) == Ok(Puzzle(k, t, d, i))
  {
    hide Hi, Lo;
    OccursConcat(s, o, [k, t, Hi(d), Lo(d)], i);
    Occurs4(s, o, k, t, Hi(d), Lo(d));
    JoinSplit(d);
  }

  lemma SolutionPayload(s: Str, o: nat, k: Byte, d: Word, i: Str, j: Str)
    requires Occurs(s, o, [k, 0, Hi(d), Lo(d)] + (i + j)) && 4 + |i| + |j| < 0x1_0000
    ensures SetSolution(s, o, 4 + |i| + |j|) == Ok(Solution(k, d, i, j)) <==> |j| == |i| || |j| == |i| + 1
  {
    hide Hi, Lo;
    OccursConcat(s, o, [k, 0, Hi(d), Lo(d)], i + j);
    OccursConcat(s, o + 4, i, j);
    Occurs4(s, o, k, 0, Hi(d), Lo(d));
    JoinSplit(d);
    var half := (|i| + |j|) / 2;
    assert |s[o + 4..o + 4 + half]| == half;
  }

  lemma HostIdFixed(s: Str, o: nat, hi: Byte, lo: Byte, third: Byte, fourth: Byte, h: Str, d: Str)
    requires Join(hi, lo) == |h|
    requires Occurs(s, o, [hi, lo, third, fourth] + ([0, ALGORITHM_ECDH] + (h + d)))
    ensures o + 6 + |h| + |d| <= |s| && s[o + 2] == third && s[o + 3] == fourth
    ensures Join(s[o], s[o + 1]) == |h| && Join(s[o + 4], s[o + 5]) == ALGORITHM_ECDH as Word
    ensures s[o + 6..o + 6 + |h|] == h && s[o + 6 + |h|..o + 6 + |h| + |d|] == d
  {
    OccursConcat(s, o, [hi, lo, third, fourth], [0, ALGORITHM_ECDH] + (h + d));
    OccursConcat(s, o + 4, [0, ALGORITHM_ECDH], h + d);
    OccursConcat(s, o + 6, h, d);
    Occurs4(s, o, hi, lo, third, fourth);
    Occurs2(s, o + 4, 0, ALGORITHM_ECDH);
  }

  lemma HostIdPayload(s: Str, o: nat, hi: Byte, lo: Byte, third: Byte, fourth: Byte, h: Str, d: Str)
    requires o >= 3 && 6 + |h| + |d| < 0x1_0000 && Join(hi, lo) == |h| && Join(third % 16, fourth) <= |d|
    requires Occurs(s, o, [hi, lo, third, fourth] + ([0, ALGORITHM_ECDH] + (h + d)))
    ensures SetHostId(s, o, 6 + |h| + |d|) == Ok(HostId(s[2] / 16, h, d))
  {
    HostIdFixed(s, o, hi, lo, third, fourth, h, d);
    hide Occurs, Join;
  }

  lemma DomainLengthBound(t: Nibble, n: nat)
    ensures Join(ThirdByte(t, n) % 16, Lo(n)) <= n
  {
    HiLo(n);
    LowNibble(t, n / 256 % 16);
    JoinValue(ThirdByte(t, n) % 16, Lo(n));
    hide Hi, Lo, Raise;
  }

  lemma LowNibble(t: Nibble, y: Nibble)
    ensures (16 * t + y) % 16 == y
  {
  }

  lemma HostIdDecoded(s: Str, o: nat, p: HipParam)
    requires p.HostId? && p.Printable() && o >= 3 && Occurs(s, o, p.GetBytes())
    ensures SetBytes(p.Type(), s, o, p.Size()) == Ok(p) <==> p.Faithful(s[2])
  {
    hide SetHostId, SetSolution, SetPuzzle, Occurs, Join, Hi, Lo, Padded;
    var n := |p.domainId|;
    DomainLengthBound(p.diType, n);
    JoinSplit(|p.hostId|);
    HostIdPayload(s, o, Hi(|p.hostId|), Lo(|p.hostId|), ThirdByte(p.diType, n), Lo(n), p.hostId, p.domainId);
    hide ThirdByte;
  }

  lemma OtherDecoded(s: Str, o: nat, p: HipParam)
    requires !p.HostId? && !p.Solution? && !p.Puzzle? && p.Printable()
    requires o >= 44 && Occurs(s, o, p.GetBytes())
    ensures SetBytes(p.Type(), s, o, p.Size()) == Ok(p) <==> p.Faithful(s[2])
  {
    hide SetHostId, SetSolution, SetPuzzle, Hi, Lo, Join;
    assert s[o..o + p.Size()] == p.GetBytes();
    hide Occurs, Padded;
    match p
    case Cipher(_) => assert s[o] == s[o..o + 1][0];
    case R1Counter(_) =>
    case Encrypted(_, _) =>
    case EncryptedKey(_) =>
    case HitSuiteList(_) =>
    case DhGroupList(_) =>
    case HipMac3(_) =>
    case EchoResponse(_) =>
    case EchoRequest(_) =>
  }

  lemma StructuredDecoded(s: Str, o: nat, p: HipParam)
    requires (p.Solution? || p.Puzzle?) && p.Printable() && Occurs(s, o, p.GetBytes())
    requires o >= 44
    ensures SetBytes(p.Type(), s, o, p.Size()) == Ok(p) <==> p.Faithful(s[2])
  {
    hide SetHostId, SetSolution, SetPuzzle, Hi, Lo, Join;
    if p.Puzzle? {
      PuzzlePayload(s, o, p.complexity, p.lifetime, p.opaqueData, p.randomI);
    } else {
      SolutionPayload(s, o, p.complexity, p.opaqueData, p.randomI, p.solutionJ);
    }
  }

  /** Decoding a printed parameter inside a packet gives it back exactly when it is
      faithful to that packet's third byte. */
  lemma DecodePrinted(s: Str, off: nat, p: HipParam)
    requires p.Printable() && Occurs(s, off, p.ToBytes()) && off >= 40
    ensures off + HEADER <= |s|
    ensures Decode(s, off) == Ok(p) <==> p.Faithful(s[2])
  {
    HeaderAt(s, off, p);
    DecodeAt(s, off, p);
    hide Decode, HipParam.ToBytes, HipParam.GetBytes, HipParam.Type, HipParam.Size, HipParam.Faithful;
    hide SetBytes, Occurs, Join;
    if p.HostId? {
      HostIdDecoded(s, off + HEADER, p);
    } else if p.Puzzle? || p.Solution? {
      StructuredDecoded(s, off + HEADER, p);
    } else {
      OtherDecoded(s, off + HEADER, p);
    }
  }

  /** What a class accepts has the type and the size of its TLV. */
  lemma SetBytesSpans(kind: Word, s: Str, off: nat, size: Word)
    requires 44 <= off <= |s| && SetBytes(kind, s, off, size).Ok?
    ensures SetBytes(kind, s, off, size).param.Type() == kind
    ensures SetBytes(kind, s, off, size).param.Size() == size && off + size <= |s|
  {
    hide Join, Padded;
    if kind == SOLUTION {
      SolutionSpans(s, off, size);
      hide SetSolution, SetPuzzle, SetHostId;
    } else if kind == PUZZLE || kind == HOST_ID {
      hide SetSolution;
    } else {
      hide SetSolution, SetPuzzle, SetHostId;
    }
  }

  lemma SolutionSpans(s: Str, off: nat, size: Word)
    requires off <= |s| && SetSolution(s, off, size).Ok?
    ensures SetSolution(s, off, size).param.Solution?
    ensures SetSolution(s, off, size).param.Size() == size && off + size <= |s|
  {
    hide Join;
    var half := (size as int - 4) / 2;
    assert 0 <= half <= size as int - 4;
  }

  lemma DecodedSpans(s: Str, off: nat)
    requires 40 <= off <= |s| && Decode(s, off).Ok?
    ensures off + HEADER <= |s| && off + HEADER + Join(s[off + 2], s[off + 3]) <= |s|
    ensures Decode(s, off).param.Size() == Join(s[off + 2], s[off + 3])
    ensures Decode(s, off).param.Type() == Join(s[off], s[off + 1])
  {
    hide SetBytes, Join, Padded, HipParam.Size, HipParam.Type;
    SetBytesSpans(Join(s[off], s[off + 1]), s, off + HEADER, Join(s[off + 2], s[off + 3]));
  }

  /** In a packet of at most 65568 bytes a decoded parameter spans exactly its TLV:
      the parse loop advances, and stays inside the packet. */
  lemma DecodedLength(s: Str, off: nat)
    requires 40 <= off <= |s| <= 65568 && Decode(s, off).Ok?
    ensures off + HEADER <= |s| && Decode(s, off).param.Size() == Join(s[off + 2], s[off + 3]) <= 65524
    ensures 0 < Decode(s, off).param.Length() <= |s| - off
    ensures Decode(s, off).param.Type() == Join(s[off], s[off + 1])
  {
    DecodedSpans(s, off);
    hide SetBytes, Join, HipParam.Size, HipParam.Type;
    assert Padded(Join(s[off + 2], s[off + 3])) <= |s| - off;
    hide Decode;
    PaddedPositive(Join(s[off + 2], s[off + 3]));
  }

  lemma PaddedPositive(size: nat)
    requires size <= 65524
    ensures 0 < Padded(size)
  {
  }

  /** One byte more, and a parameter can be decoded whose 16-bit length is 0. */
  lemma ZeroLengthDecoded(s: Str)
    requires |s| == 65569
    requires Join(s[40], s[41]) == HIP_MAC_3 && Join(s[42], s[43]) == 65525
    ensures Decode(s, 40).Ok? && Decode(s, 40).param.Length() == 0
  {
    assert |s[44..65569]| == 65525;
  }

  // ---------------------------------------------------------------- reprinting

  /** Payload bytes that decoding ignores: a reserved byte, and the type and length of a domain. */
  predicate Ignored(p: HipParam, k: nat) { if p.Solution? then k == 1 else p.HostId? && (k == 2 || k == 3) }

  /** The other way round: printing what was decoded gives back the payload that was read,
      except for the bytes that decoding ignores. */
  lemma DecodedReprints(s: Str, off: nat, k: nat)
    requires 40 <= off <= |s| && Decode(s, off).Ok?
    requires Decode(s, off).param.Printable() && k < Decode(s, off).param.Size()
    ensures off + HEADER + k < |s|
    ensures !Ignored(Decode(s, off).param, k) ==> Decode(s, off).param.GetBytes()[k] == s[off + HEADER + k]
  {
    DecodedSpans(s, off);
    var kind, size := Join(s[off], s[off + 1]), Join(s[off + 2], s[off + 3]);
    assert Decode(s, off) == SetBytes(kind, s, off + HEADER, size);
    hide Decode, Join, HipParam.GetBytes, SetBytes, HipParam.Printable, HipParam.Size, HipParam.Type;
    Reprints(kind, s, off + HEADER, size, k);
  }

  lemma Reprints(kind: Word, s: Str, o: nat, size: Word, k: nat)
    requires 44 <= o <= |s| && SetBytes(kind, s, o, size).Ok?
    requires var p := SetBytes(kind, s, o, size).param; p.Printable() && k < p.Size() == size && p.Type() == kind
    requires o + size <= |s|
    ensures var p := SetBytes(kind, s, o, size).param;
            !Ignored(p, k) ==> p.GetBytes()[k] == s[o + k]
  {
    hide Join, Hi, Lo, ThirdByte;
    if kind == PUZZLE || kind == SOLUTION {
      hide SetBytes, SetSolution, SetPuzzle, SetHostId, HipParam.GetBytes, HipParam.Printable;
      PuzzleReprints(kind, s, o, size, k);
    } else if kind == HOST_ID {
      hide SetBytes, SetSolution, SetPuzzle, SetHostId, HipParam.GetBytes, HipParam.Printable;
      HostIdReprints(kind, s, o, size, k);
    } else {
      hide SetSolution, SetPuzzle, SetHostId;
    }
  }

  lemma PuzzleReprints(kind: Word, s: Str, o: nat, size: Word, k: nat)
    requires (kind == PUZZLE || kind == SOLUTION) && 44 <= o && o + size <= |s| && SetBytes(kind, s, o, size).Ok?
    requires var p := SetBytes(kind, s, o, size).param; p.Printable() && k < p.Size() == size
    ensures var p := SetBytes(kind, s, o, size).param; (kind == SOLUTION ==> k != 1) ==> p.GetBytes()[k] == s[o + k]
    ensures var p := SetBytes(kind, s, o, size).param; if kind == PUZZLE then p.Puzzle? else p.Solution?
  {
    hide Join, Hi, Lo;
    SplitJoin(s[o + 2], s[o + 3]);
  }

  lemma HostIdReprints(kind: Word, s: Str, o: nat, size: Word, k: nat)
    requires kind == HOST_ID && 44 <= o && o + size <= |s| && SetBytes(kind, s, o, size).Ok?
    requires var p := SetBytes(kind, s, o, size).param; p.Printable() && k < p.Size() == size && p.HostId?
    ensures var p := SetBytes(kind, s, o, size).param; k != 2 && k != 3 ==> p.GetBytes()[k] == s[o + k]
  {
    hide Join, Hi, Lo, ThirdByte;
    SplitJoin(s[o], s[o + 1]);
    SplitJoin(s[o + 4], s[o + 5]);
    Eleven();
  }

  lemma Eleven()
    ensures Hi(ALGORITHM_ECDH as Word) == 0 && Lo(ALGORITHM_ECDH as Word) == ALGORITHM_ECDH
  {
  }
}
