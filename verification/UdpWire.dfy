/** The LLUD frame octet by octet, and exactly which frames and datagrams are accepted. */
module UdpWire {
  import opened Wrappers
  import opened Bytes
  import opened MapSum
  import opened UdpProtocol

  /** A fragment the protocol allows: within the limits, and as long as its place in the datagram demands. */
  predicate Allowed(f: Fragment)
  {
    && (exists i :: 0 <= i < 16 && f.sessionId[i] != 0)
    && 1 <= f.count <= 64 && f.index < f.count && f.originalLength <= 65_507
    && |f.payload| <= f.originalLength && (f.payload == [] ==> f.originalLength == 0)
    && (f.count == 1 <==> |f.payload| == f.originalLength)
  }

  /** The octets of a frame: LLUD, version 1, direction, no flags, then the fields, most significant octet first. */
  predicate FrameOf(b: seq<Byte>, f: Fragment)
  {
    && |b| >= 40 && b[0] == 76 && b[1] == 76 && b[2] == 85 && b[3] == 68 && b[4] == 1
    && b[5] == (if f.direction == PublicToTarget then 1 else 2) && b[6] == 0 && b[7] == 0
    && b[8..24] == f.sessionId && FromBe(b[24..32]) == f.datagramId && FromBe(b[32..34]) == f.index
    && FromBe(b[34..36]) == f.count && FromBe(b[36..40]) == f.originalLength && b[40..] == f.payload
  }

  lemma {:induction false} ValidExact(f: Fragment)
    ensures Validate(f) == None <==> Allowed(f)
  {
    NilExact(f.sessionId);
  }

  lemma {:induction false} NilExact(id: Uuid)
    ensures id == NIL_UUID <==> forall i :: 0 <= i < 16 ==> id[i] == 0
  {
  }

  lemma {:induction false} NoFlags(b: seq<Byte>)
    requires |b| == 2
    ensures FromBe(b) == 0 <==> b[0] == 0 && b[1] == 0
  {
    FromBeStep([b[0]], b[1]);
    FromBeStep([], b[0]);
    assert [] + [b[0]] == [b[0]] && b == [b[0]] + [b[1]];
  }

  /** A frame is decoded to a fragment exactly if it is its frame and the fragment is allowed. */
  lemma {:induction false} DecodeExact(b: seq<Byte>, f: Fragment)
    ensures Decode(b) == Ok(f) <==> FrameOf(b, f) && Allowed(f)
  {
    hide Validate, Allowed, FromBe;
    ValidExact(f);
    if |b| >= 40 {
      NoFlags(b[6..8]);
      assert b[..4] == MAGIC <==> b[0] == 76 && b[1] == 76 && b[2] == 85 && b[3] == 68;
    }
  }

  /** A fragment is encoded to a frame exactly if it is allowed and the frame is its own. */
  lemma {:induction false} EncodeExact(f: Fragment, b: seq<Byte>)
    ensures Encode(f) == Ok(b) <==> FrameOf(b, f) && Allowed(f)
  {
    hide Decode, Encode, FrameOf, Allowed, Validate;
    DecodeExact(b, f);
    ValidExact(f);
    EncodesIffValid(f);
    if Allowed(f) {
      DecodeEncode(f);
      DecodeExact(Encode(f).value, f);
    }
    if Decode(b) == Ok(f) {
      EncodeDecode(b);
    }
  }

  lemma {:induction false} EncodesIffValid(f: Fragment)
    ensures Encode(f).Ok? <==> Validate(f) == None
  {
  }

  /** Why a frame is refused: the reason given is a fault the frame has. */
  lemma {:induction false} DecodeReason(b: seq<Byte>)
    ensures match Decode(b)
      case Ok(_) => true
      case Err(FrameTooShort(n)) => n == |b| < 40
      case Err(InvalidMagic) => |b| >= 40 && b[..4] != [76, 76, 85, 68]
      case Err(UnsupportedVersion(v)) => |b| >= 40 && v == b[4] != 1
      case Err(InvalidDirection(d)) => |b| >= 40 && d == b[5] && d != 1 && d != 2
      case Err(UnsupportedFlags(n)) => |b| >= 40 && n == FromBe(b[6..8]) != 0
      case Err(NilSessionId) => |b| >= 40 && b[8..24] == NIL_UUID
      case Err(InvalidFragmentCount(n)) => |b| >= 40 && n == FromBe(b[34..36]) && (n == 0 || n > 64)
      case Err(InvalidFragmentIndex(i, n)) =>
        |b| >= 40 && i == FromBe(b[32..34]) && n == FromBe(b[34..36]) && i >= n
      case Err(DatagramTooLarge(n)) => |b| >= 40 && n == FromBe(b[36..40]) > 65_507
      case Err(InvalidFragmentLength) => |b| >= 40 && LengthFault(FromBe(b[34..36]), FromBe(b[36..40]), |b| - 40)
      case Err(_) => false
  {
    hide FromBe;
  }

  /** A fragment of `size` bytes cannot be one of `count` that make up `length` bytes. */
  predicate LengthFault(count: nat, length: nat, size: nat)
  {
    size > length || (size == 0 && length > 0) || (count == 1 && size != length) || (count != 1 && size == length)
  }

  /** A datagram can be split exactly if it is not too long for UDP or for 64 frames that hold more than a header. */
  lemma {:induction false} SplitsExactly(sessionId: Uuid, payload: seq<Byte>, maxFrame: nat)
    ensures FragmentError(sessionId, payload, maxFrame) == None <==>
      && sessionId != NIL_UUID && |payload| <= 65_507 && maxFrame > 40 && |payload| <= 64 * (maxFrame - 40)
    ensures match FragmentError(sessionId, payload, maxFrame)
      case Some(NilSessionId) => sessionId == NIL_UUID
      case Some(DatagramTooLarge(n)) => n == |payload| > 65_507
      case Some(FrameLimitTooSmall) => maxFrame <= 40
      case Some(TooManyFragments) => maxFrame > 40 && |payload| > 64 * (maxFrame - 40)
      case Some(_) => false
      case None => true
  {
    hide CeilDiv;
    if payload != [] && maxFrame > 40 {
      FewEnough(|payload|, maxFrame - 40);
    }
  }

  lemma {:induction false} FewEnough(n: nat, room: nat)
    requires n > 0 && room > 0
    ensures CeilDiv(n, room) <= 64 <==> n <= 64 * room
  {
    hide CeilDiv;
    CeilDivBounds(n, room);
    if CeilDiv(n, room) <= 64 {
      MoreIsMore(CeilDiv(n, room), 64, room);
    } else {
      MoreIsMore(64, CeilDiv(n, room) - 1, room);
    }
  }
}
