/** The LLUD binary frame: validation, codec and datagram fragmentation. */
module UdpProtocol {
  import opened Wrappers
  import opened Bytes

  const MAGIC: seq<Byte> := [0x4c, 0x4c, 0x55, 0x44] // "LLUD"
  const VERSION: Byte := 1
  const HEADER_BYTES := 40
  const MAX_FRAGMENTS := 64

  datatype Direction = PublicToTarget | TargetToPublic

  datatype Fragment = Fragment(
    direction: Direction,
    sessionId: Uuid,
    datagramId: U64,
    index: U16,
    count: U16,
    originalLength: U32,
    payload: seq<Byte>)

  datatype Error =
    | FrameTooShort(length: nat)
    | InvalidMagic
    | UnsupportedVersion(version: Byte)
    | InvalidDirection(code: Byte)
    | UnsupportedFlags(flags: U16)
    | NilSessionId
    | InvalidFragmentCount(n: U16)
    | InvalidFragmentIndex(i: U16, n: U16)
    | DatagramTooLarge(size: nat)
    | InvalidFragmentLength
    | FrameLimitTooSmall
    | TooManyFragments

  function DirectionCode(d: Direction): Byte
  {
    match d case PublicToTarget => 1 case TargetToPublic => 2
  }

  /** `None` when the fragment is well formed, otherwise the first rule it breaks. */
  function Validate(f: Fragment): Option<Error>
  {
    if f.sessionId == NIL_UUID then Some(NilSessionId)
    else if f.count == 0 || f.count > MAX_FRAGMENTS then Some(InvalidFragmentCount(f.count))
    else if f.index >= f.count then Some(InvalidFragmentIndex(f.index, f.count))
    else if f.originalLength > MAX_DATAGRAM_BYTES then Some(DatagramTooLarge(f.originalLength))
    else if f.originalLength == 0 then
      if f.count != 1 || f.index != 0 || f.payload != [] then Some(InvalidFragmentLength) else None
    else if f.payload == [] || |f.payload| > f.originalLength then Some(InvalidFragmentLength)
    else if f.count == 1 && |f.payload| != f.originalLength then Some(InvalidFragmentLength)
    else if f.count > 1 && |f.payload| == f.originalLength then Some(InvalidFragmentLength)
    else None
  }

  function Header(f: Fragment): (h: seq<Byte>)
    ensures |h| == HEADER_BYTES
  {
    MAGIC + [VERSION, DirectionCode(f.direction), 0, 0] + f.sessionId + ToBe(f.datagramId, 8)
    + ToBe(f.index, 2) + ToBe(f.count, 2) + ToBe(f.originalLength, 4)
  }

  function Encode(f: Fragment): Result<seq<Byte>, Error>
  {
    match Validate(f)
    case Some(e) => Err(e)
    case None => Ok(Header(f) + f.payload)
  }

  function U16At(b: seq<Byte>, at: nat): U16
    requires at + 2 <= |b|
  {
    Pow256Values();
    FromBe(b[at..at + 2])
  }

  function Fields(b: seq<Byte>, d: Direction): Fragment
    requires |b| >= HEADER_BYTES
  {
    Pow256Values();
    Fragment(d, b[8..24], FromBe(b[24..32]), U16At(b, 32), U16At(b, 34), FromBe(b[36..40]), b[HEADER_BYTES..])
  }

  function Decode(b: seq<Byte>): Result<Fragment, Error>
  {
    if |b| < HEADER_BYTES then Err(FrameTooShort(|b|))
    else if b[..4] != MAGIC then Err(InvalidMagic)
    else if b[4] != VERSION then Err(UnsupportedVersion(b[4]))
    else if b[5] != 1 && b[5] != 2 then Err(InvalidDirection(b[5]))
    else if U16At(b, 6) != 0 then Err(UnsupportedFlags(U16At(b, 6)))
    else
      var f := Fields(b, if b[5] == 1 then PublicToTarget else TargetToPublic);
      match Validate(f)
      case Some(e) => Err(e)
      case None => Ok(f)
  }

  lemma {:induction false} HeaderSlices(f: Fragment, b: seq<Byte>)
    requires b == Header(f) + f.payload
    ensures b[..4] == MAGIC && b[4] == VERSION && b[5] == DirectionCode(f.direction)
    ensures b[6..8] == [0, 0] && b[8..24] == f.sessionId && b[24..32] == ToBe(f.datagramId, 8)
    ensures b[32..34] == ToBe(f.index, 2) && b[34..36] == ToBe(f.count, 2)
    ensures b[36..40] == ToBe(f.originalLength, 4) && b[40..] == f.payload
  {
  }

  /** Decoding undoes encoding on exactly the fragments the encoder accepts. */
  lemma {:induction false} DecodeEncode(f: Fragment)
    requires Validate(f) == None
    ensures Decode(Encode(f).value) == Ok(f)
  {
    var b := Encode(f).value;
    HeaderSlices(f, b);
    Pow256Values();
    FromToBe(f.datagramId, 8);
    FromToBe(f.index, 2);
    FromToBe(f.count, 2);
    FromToBe(f.originalLength, 4);
    assert ToBe(0, 2) == [0, 0] by { assert ToBe(0, 1) == [0]; }
    FromToBe(0, 2);
    assert Fields(b, f.direction) == f;
  }

  lemma {:induction false} HeaderRebuilt(b: seq<Byte>, f: Fragment)
    requires |b| >= HEADER_BYTES && b[..4] == MAGIC && b[4] == VERSION && b[5] == DirectionCode(f.direction)
    requires b[6..8] == [0, 0] && b[8..24] == f.sessionId && b[24..32] == ToBe(f.datagramId, 8)
    requires b[32..34] == ToBe(f.index, 2) && b[34..36] == ToBe(f.count, 2)
    requires b[36..40] == ToBe(f.originalLength, 4) && b[40..] == f.payload
    ensures Header(f) + f.payload == b
  {
    assert b[..8] == MAGIC + [VERSION, DirectionCode(f.direction), 0, 0] by {
      assert b[..8] == b[..4] + [b[4], b[5]] + b[6..8];
    }
    assert b[..24] == b[..8] + b[8..24];
    assert b[..32] == b[..24] + b[24..32];
    assert b[..34] == b[..32] + b[32..34];
    assert b[..36] == b[..34] + b[34..36];
    assert b[..40] == b[..36] + b[36..40];
    assert b == b[..40] + b[40..];
  }

  /** Every accepted frame is reproduced octet for octet by re-encoding what was decoded. */
  lemma {:induction false} EncodeDecode(b: seq<Byte>)
    requires Decode(b).Ok?
    ensures Encode(Decode(b).value) == Ok(b)
  {
    var f := Decode(b).value;
    assert b[..4] == MAGIC && b[4] == VERSION && b[5] == DirectionCode(f.direction);
    assert b[6..8] == [0, 0] by {
      ToFromBe(b[6..8]);
      assert ToBe(0, 2) == [0, 0] by { assert ToBe(0, 1) == [0]; }
    }
    ToFromBe(b[24..32]);
    ToFromBe(b[32..34]);
    ToFromBe(b[34..36]);
    ToFromBe(b[36..40]);
    HeaderRebuilt(b, f);
  }

  // ---------------------------------------------------------------- fragmentation

  function Min(a: int, b: int): int { if a <= b then a else b }

  function CeilDiv(n: nat, d: nat): nat
    requires d > 0
  {
    (n + d - 1) / d
  }

  lemma {:induction false} CeilDivBounds(n: nat, d: nat)
    requires d > 0 && n > 0
    ensures CeilDiv(n, d) >= 1
    ensures (CeilDiv(n, d) - 1) * d < n <= CeilDiv(n, d) * d
    ensures CeilDiv(n, d) > 1 <==> n > d
  {
    var q := CeilDiv(n, d);
    var r := (n + d - 1) % d;
    assert n + d - 1 == q * d + r;
    assert (q - 1) * d == q * d - d;
    assert q <= 0 ==> q * d <= 0;
    assert q <= 1 ==> q * d <= d;
    assert q > 1 ==> q * d >= 2 * d;
  }

  /** Why a datagram cannot be fragmented at all; `None` when it can. */
  function FragmentError(sessionId: Uuid, payload: seq<Byte>, maxFrame: nat): Option<Error>
  {
    if sessionId == NIL_UUID then Some(NilSessionId)
    else if |payload| > MAX_DATAGRAM_BYTES then Some(DatagramTooLarge(|payload|))
    else if maxFrame <= HEADER_BYTES then Some(FrameLimitTooSmall)
    else if payload != [] && CeilDiv(|payload|, maxFrame - HEADER_BYTES) > MAX_FRAGMENTS then Some(TooManyFragments)
    else None
  }

  /** `fs` are the fragments, in order, of one whole datagram carrying `payload`. */
  ghost predicate IsDatagram(fs: seq<Fragment>, d: Direction, sessionId: Uuid, datagramId: U64, payload: seq<Byte>)
  {
    && 1 <= |fs| <= MAX_FRAGMENTS
    && |payload| <= MAX_DATAGRAM_BYTES
    && (forall i :: 0 <= i < |fs| ==>
      && Validate(fs[i]) == None
      && fs[i] == Fragment(d, sessionId, datagramId, i, |fs|, |payload|, fs[i].payload))
    && Concat(Payloads(fs)) == payload
  }

  function Payloads(fs: seq<Fragment>): seq<seq<Byte>>
  {
    seq(|fs|, i requires 0 <= i < |fs| => fs[i].payload)
  }

  lemma {:induction false} PayloadsAppend(fs: seq<Fragment>, f: Fragment)
    ensures Concat(Payloads(fs + [f])) == Concat(Payloads(fs)) + f.payload
  {
    assert Payloads(fs + [f]) == Payloads(fs) + [f.payload];
    ConcatAppend(Payloads(fs), f.payload);
  }

  /** Number of fragments needed when every frame leaves `room` octets for payload. */
  function PartCount(length: nat, room: nat): nat
    requires room > 0
  {
    if length == 0 then 1 else CeilDiv(length, room)
  }

  lemma {:induction false} PartBounds(length: nat, room: nat, i: nat)
    requires room > 0 && i < PartCount(length, room)
    ensures length == 0 ==> i == 0
    ensures length > 0 ==> i * room < length
    ensures Min(i * room + room, length) == Min((i + 1) * room, length)
    ensures Min((i + 1) * room, length) == length <==> i + 1 == PartCount(length, room)
    ensures PartCount(length, room) > 1 <==> length > room
  {
    assert (i + 1) * room == i * room + room;
    if length > 0 {
      var q := CeilDiv(length, room);
      CeilDivBounds(length, room);
      assert i * room <= (q - 1) * room;
      assert i + 1 < q ==> (i + 1) * room <= (q - 1) * room;
    } else {
      assert i == 0;
    }
  }

  /** The `i`-th chunk of the payload. */
  function Chunk(payload: seq<Byte>, room: nat, i: nat): seq<Byte>
    requires room > 0 && i < PartCount(|payload|, room)
  {
    PartBounds(|payload|, room, i);
    payload[i * room..Min(i * room + room, |payload|)]
  }

  /** The `i`-th fragment of a datagram that can be fragmented. */
  function Part(d: Direction, sessionId: Uuid, datagramId: U64, payload: seq<Byte>, room: nat, i: nat): Fragment
    requires room > 0 && |payload| <= MAX_DATAGRAM_BYTES && i < PartCount(|payload|, room) <= MAX_FRAGMENTS
  {
    Fragment(d, sessionId, datagramId, i, PartCount(|payload|, room), |payload|, Chunk(payload, room, i))
  }

  lemma {:induction false} PartValid(
    d: Direction, sessionId: Uuid, datagramId: U64, payload: seq<Byte>, room: nat, i: nat)
    requires room > 0 && |payload| <= MAX_DATAGRAM_BYTES && i < PartCount(|payload|, room) <= MAX_FRAGMENTS
    requires sessionId != NIL_UUID
    ensures Validate(Part(d, sessionId, datagramId, payload, room, i)) == None
    ensures |Chunk(payload, room, i)| <= room
    ensures i + 1 < PartCount(|payload|, room) ==> |Chunk(payload, room, i)| == room
  {
    PartBounds(|payload|, room, i);
  }

  function PartsFrom(
    d: Direction, sessionId: Uuid, datagramId: U64, payload: seq<Byte>, room: nat, n: nat): seq<Fragment>
    requires room > 0 && |payload| <= MAX_DATAGRAM_BYTES && n <= PartCount(|payload|, room) <= MAX_FRAGMENTS
  {
    seq(n, i requires 0 <= i < n => Part(d, sessionId, datagramId, payload, room, i))
  }

  /** The fragments of a datagram for which `FragmentError` reports nothing. */
  function Parts(d: Direction, sessionId: Uuid, datagramId: U64, payload: seq<Byte>, maxFrame: nat): seq<Fragment>
    requires FragmentError(sessionId, payload, maxFrame) == None
  {
    var room := maxFrame - HEADER_BYTES;
    PartsFrom(d, sessionId, datagramId, payload, room, PartCount(|payload|, room))
  }

  lemma {:induction false} NextChunk(payload: seq<Byte>, room: nat, i: nat)
    requires room > 0 && i < PartCount(|payload|, room)
    ensures i * room >= 0 && (i + 1) * room >= 0
    ensures payload[..Min((i + 1) * room, |payload|)] == payload[..Min(i * room, |payload|)] + Chunk(payload, room, i)
  {
    PartBounds(|payload|, room, i);
    assert (i + 1) * room == i * room + room;
  }

  lemma {:induction false} PartsConcat(
    d: Direction, sessionId: Uuid, datagramId: U64, payload: seq<Byte>, room: nat, n: nat)
    requires room > 0 && |payload| <= MAX_DATAGRAM_BYTES && n <= PartCount(|payload|, room) <= MAX_FRAGMENTS
    ensures n * room >= 0
    ensures var parts := PartsFrom(d, sessionId, datagramId, payload, room, n);
      Concat(Payloads(parts)) == payload[..Min(n * room, |payload|)]
  {
    var fs := PartsFrom(d, sessionId, datagramId, payload, room, n);
    if n == 0 {
      assert Payloads(fs) == [];
    } else {
      var f := Part(d, sessionId, datagramId, payload, room, n - 1);
      var init := PartsFrom(d, sessionId, datagramId, payload, room, n - 1);
      assert fs == init + [f];
      PartsConcat(d, sessionId, datagramId, payload, room, n - 1);
      PayloadsAppend(init, f);
      NextChunk(payload, room, n - 1);
    }
  }

  /** Whatever can be fragmented is fragmented into a whole, valid datagram. */
  lemma {:induction false} PartsAreDatagram(
    d: Direction, sessionId: Uuid, datagramId: U64, payload: seq<Byte>, maxFrame: nat)
    requires FragmentError(sessionId, payload, maxFrame) == None
    ensures IsDatagram(Parts(d, sessionId, datagramId, payload, maxFrame), d, sessionId, datagramId, payload)
  {
    var room := maxFrame - HEADER_BYTES;
    var n := PartCount(|payload|, room);
    PartsConcat(d, sessionId, datagramId, payload, room, n);
    if payload != [] {
      CeilDivBounds(|payload|, room);
    }
    assert payload[..Min(n * room, |payload|)] == payload;
    forall i | 0 <= i < n
      ensures Validate(Part(d, sessionId, datagramId, payload, room, i)) == None
    {
      PartValid(d, sessionId, datagramId, payload, room, i);
    }
  }

  lemma {:induction false} PartFrame(
    d: Direction, sessionId: Uuid, datagramId: U64, payload: seq<Byte>, room: nat, i: nat)
    requires room > 0 && |payload| <= MAX_DATAGRAM_BYTES && i < PartCount(|payload|, room) <= MAX_FRAGMENTS
    requires sessionId != NIL_UUID
    ensures var f := Part(d, sessionId, datagramId, payload, room, i);
      && Encode(f).Ok? && Decode(Encode(f).value) == Ok(f)
      && |Encode(f).value| <= HEADER_BYTES + room
      && (i + 1 < PartCount(|payload|, room) ==> |Encode(f).value| == HEADER_BYTES + room)
  {
    PartValid(d, sessionId, datagramId, payload, room, i);
    DecodeEncode(Part(d, sessionId, datagramId, payload, room, i));
  }

  /**
   * Splits a datagram into frames. On success frame `i` decodes to part `i`, each frame fits the
   * limit and all but the last are exactly as large as the limit allows.
   */
  method FragmentDatagram(d: Direction, sessionId: Uuid, datagramId: U64, payload: seq<Byte>, maxFrame: nat)
    returns (r: Result<seq<seq<Byte>>, Error>)
    ensures match FragmentError(sessionId, payload, maxFrame)
      case Some(e) => r == Err(e)
      case None =>
        var fs := Parts(d, sessionId, datagramId, payload, maxFrame);
        && r.Ok? && |r.value| == |fs|
        && forall i :: 0 <= i < |fs| ==>
          && Decode(r.value[i]) == Ok(fs[i])
          && |r.value[i]| <= maxFrame
          && (i + 1 < |fs| ==> |r.value[i]| == maxFrame)
  {
    hide Decode, Encode, Part;
    if sessionId == NIL_UUID { return Err(NilSessionId); }
    if |payload| > MAX_DATAGRAM_BYTES { return Err(DatagramTooLarge(|payload|)); }
    if maxFrame <= HEADER_BYTES { return Err(FrameLimitTooSmall); }
    var room := maxFrame - HEADER_BYTES;
    var count := PartCount(|payload|, room);
    if count > MAX_FRAGMENTS { return Err(TooManyFragments); }
    var frames: seq<seq<Byte>> := [];
    for i := 0 to count
      invariant |frames| == i
      invariant forall k :: 0 <= k < i ==>
        Carries(frames[k], Part(d, sessionId, datagramId, payload, room, k), maxFrame, k + 1 < count)
    {
      var f := Part(d, sessionId, datagramId, payload, room, i);
      PartFrame(d, sessionId, datagramId, payload, room, i);
      frames := frames + [Encode(f).value];
    }
    r := Ok(frames);
  }

  /** The frame decodes to the part and is as large as the limit allows if more follow. */
  predicate Carries(frame: seq<Byte>, part: Fragment, maxFrame: nat, more: bool)
  {
    Decode(frame) == Ok(part) && |frame| <= maxFrame && (more ==> |frame| == maxFrame)
  }
}
