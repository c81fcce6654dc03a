/** The SOCKS5 UDP request envelope (section 7 of RFC 1928). */
module Socks5Udp {
  import opened Wrappers
  import opened Bytes

  type Octets4 = s: seq<Byte> | |s| == 4 witness [0, 0, 0, 0]
  type Octets16 = s: seq<Byte> | |s| == 16 witness NIL_UUID

  const MAX_ENVELOPE_BYTES := 65_535
  const DOT: Byte := 0x2e
  const HYPHEN: Byte := 0x2d

  datatype Target = V4(v4: Octets4) | V6(v6: Octets16) | Domain(name: seq<Byte>)

  datatype Datagram = Datagram(target: Target, port: U16, payload: seq<Byte>)

  datatype Fragment = Fragment(sequence: nat, final: bool, target: Target, port: U16, payload: seq<Byte>)

  datatype Error =
    | TooShort
    | InvalidReserved
    | FragmentationUnsupported
    | InvalidFragmentSequence
    | UnsupportedAddressType
    | InvalidDomain
    | InvalidPort
    | TooLarge

  /** The dot-separated labels of a name; a name without dots is its own only text. */
  function Labels(name: seq<Byte>): (labels: seq<seq<Byte>>)
    ensures labels != []
  {
    if name == [] then [[]]
    else
      var rest := Labels(name[1..]);
      if name[0] == DOT then [[]] + rest else [[name[0]] + rest[0]] + rest[1..]
  }

  predicate ValidLabel(text: seq<Byte>)
  {
    && 1 <= |text| <= 63
    && text[0] != HYPHEN && text[|text| - 1] != HYPHEN
    && forall i :: 0 <= i < |text| ==> AlphaNumeric(text[i]) || text[i] == HYPHEN
  }

  predicate AlphaNumeric(b: Byte)
  {
    0x30 <= b <= 0x39 || 0x41 <= b <= 0x5a || 0x61 <= b <= 0x7a
  }

  predicate ValidDomain(name: seq<Byte>)
  {
    1 <= |name| <= 253 && forall i :: 0 <= i < |Labels(name)| ==> ValidLabel(Labels(name)[i])
  }

  /** Reserved octets, FRAG, address and port; refuses a name that is not a host name. */
  function HeaderLength(t: Target): Result<nat, Error>
  {
    match t
    case V4(_) => Ok(3 + 5 + 2)
    case V6(_) => Ok(3 + 17 + 2)
    case Domain(name) => if !ValidDomain(name) then Err(InvalidDomain) else Ok(3 + (2 + |name|) + 2)
  }

  function Address(t: Target): seq<Byte>
    requires HeaderLength(t).Ok?
  {
    match t
    case V4(a) => [0x01] + a
    case V6(a) => [0x04] + a
    case Domain(name) => [0x03, |name|] + name
  }

  function Encode(d: Datagram): Result<seq<Byte>, Error>
  {
    match HeaderLength(d.target)
    case Err(e) => Err(e)
    case Ok(header) =>
      if header + |d.payload| > MAX_ENVELOPE_BYTES then Err(TooLarge)
      else Ok([0, 0, 0] + Address(d.target) + ToBe(d.port, 2) + d.payload)
  }

  /** The address and the offset of the port that follows it. */
  function DecodeAddress(b: seq<Byte>): Result<(Target, nat), Error>
    requires |b| >= 7
  {
    if b[3] == 0x01 then
      if |b| < 10 then Err(TooShort) else Ok((V4(b[4..8]), 8))
    else if b[3] == 0x03 then
      var length: nat := b[4];
      if length == 0 || |b| < 5 + length + 2 then Err(TooShort)
      else if !ValidDomain(b[5..5 + length]) then Err(InvalidDomain)
      else Ok((Domain(b[5..5 + length]), 5 + length))
    else if b[3] == 0x04 then
      if |b| < 22 then Err(TooShort) else Ok((V6(b[4..20]), 20))
    else Err(UnsupportedAddressType)
  }

  function DecodeFragment(b: seq<Byte>): Result<Fragment, Error>
  {
    if |b| < 7 then Err(TooShort)
    else if b[0] != 0 || b[1] != 0 then Err(InvalidReserved)
    else
      var sequence, final := b[2] % 128, b[2] >= 128;
      if final && sequence == 0 then Err(InvalidFragmentSequence)
      else match DecodeAddress(b)
        case Err(e) => Err(e)
        case Ok((target, at)) =>
          var port := FromBe(b[at..at + 2]);
          if port == 0 then Err(InvalidPort)
          else Pow256Values(); Ok(Fragment(sequence, final, target, port, b[at + 2..]))
  }

  function DecodeDatagram(b: seq<Byte>): Result<Datagram, Error>
  {
    match DecodeFragment(b)
    case Err(e) => Err(e)
    case Ok(f) =>
      if f.sequence != 0 || f.final then Err(FragmentationUnsupported)
      else Ok(Datagram(f.target, f.port, f.payload))
  }

  lemma {:induction false} DomainRoundTrip(b: seq<Byte>, name: seq<Byte>, tail: seq<Byte>)
    requires ValidDomain(name) && |tail| >= 2 && b == [0, 0, 0] + ([0x03, |name|] + name) + tail
    ensures |b| >= 7 && DecodeAddress(b) == Ok((Domain(name), 5 + |name|)) && b[5 + |name|..] == tail
  {
    hide Labels, ValidLabel;
    assert b[3] == 0x03 && b[4] == |name|;
    assert b[5..5 + |name|] == name;
  }

  lemma {:induction false} AddressRoundTrip(b: seq<Byte>, t: Target, tail: seq<Byte>)
    requires HeaderLength(t).Ok? && |tail| >= 2 && b == [0, 0, 0] + Address(t) + tail
    ensures |b| >= 7 && |b| == HeaderLength(t).value - 2 + |tail|
    ensures DecodeAddress(b) == Ok((t, HeaderLength(t).value - 2))
    ensures b[HeaderLength(t).value - 2..] == tail
  {
    hide Labels, ValidLabel;
    match t
    case V4(a) => assert b[4..8] == a;
    case V6(a) => assert b[4..20] == a;
    case Domain(name) => DomainRoundTrip(b, name, tail);
  }

  /** Decoding what was encoded gives the datagram back exactly when its port is not zero. */
  lemma {:induction false} DecodeEncode(d: Datagram)
    requires Encode(d).Ok?
    ensures d.port != 0 ==> DecodeDatagram(Encode(d).value) == Ok(d)
    ensures d.port == 0 ==> DecodeDatagram(Encode(d).value) == Err(InvalidPort)
    ensures |Encode(d).value| == HeaderLength(d.target).value + |d.payload| <= MAX_ENVELOPE_BYTES
  {
    hide DecodeAddress, Address, ValidDomain;
    var b, at := Encode(d).value, HeaderLength(d.target).value - 2;
    var tail := ToBe(d.port, 2) + d.payload;
    assert b == [0, 0, 0] + Address(d.target) + tail;
    AddressRoundTrip(b, d.target, tail);
    assert b[at..at + 2] == tail[..2] == ToBe(d.port, 2);
    assert b[at + 2..] == tail[2..] == d.payload;
    Pow256Values();
    FromToBe(d.port, 2);
    assert b[0] == 0 && b[1] == 0 && b[2] == 0;
  }

  lemma {:induction false} AddressRebuilt(b: seq<Byte>)
    requires |b| >= 7 && DecodeAddress(b).Ok?
    ensures var (t, at) := DecodeAddress(b).value;
      && HeaderLength(t) == Ok(at + 2) && 3 <= at && at + 2 <= |b| && b[3..at] == Address(t)
  {
    hide Labels, ValidLabel;
    if b[3] == 0x01 {
      assert b[3..8] == [b[3]] + b[4..8];
    } else if b[3] == 0x03 {
      var length: nat := b[4];
      assert b[3..5 + length] == [b[3], b[4]] + b[5..5 + length];
    } else {
      assert b[3..20] == [b[3]] + b[4..20];
    }
  }

  /** Re-encoding an accepted unfragmented envelope reproduces it exactly when it is not oversized. */
  lemma {:induction false} EncodeDecode(b: seq<Byte>)
    requires DecodeDatagram(b).Ok?
    ensures |b| <= MAX_ENVELOPE_BYTES ==> Encode(DecodeDatagram(b).value) == Ok(b)
    ensures |b| > MAX_ENVELOPE_BYTES ==> Encode(DecodeDatagram(b).value) == Err(TooLarge)
  {
    hide DecodeAddress, HeaderLength;
    var d := DecodeDatagram(b).value;
    var (t, at) := DecodeAddress(b).value;
    AddressRebuilt(b);
    ToFromBe(b[at..at + 2]);
    assert b[2] == 0;
    assert b == [b[0], b[1], b[2]] + b[3..at] + b[at..at + 2] + b[at + 2..];
  }

  // ---------------------------------------------------------------- the layout on the wire

  /** Where the port stands: after two reserved octets, FRAG, the address type and the address. */
  function PortOffset(t: Target): nat
  {
    match t case V4(_) => 8 case V6(_) => 20 case Domain(name) => 5 + |name|
  }

  /** Address type and address stand in their places, and the port has room behind them. */
  predicate AddressAt(b: seq<Byte>, t: Target)
  {
    && |b| >= PortOffset(t) + 2
    && match t
       case V4(a) => b[3] == 1 && b[4..8] == a
       case V6(a) => b[3] == 4 && b[4..20] == a
       case Domain(name) => b[3] == 3 && b[4] == |name| && b[5..5 + |name|] == name
  }

  /** Two octets, the more significant first. */
  function Number(high: int, low: int): int
  {
    256 * high + low
  }

  /** The octets of an envelope, place by place, as section 7 of RFC 1928 lays them out. */
  predicate Layout(b: seq<Byte>, frag: nat, t: Target, port: nat, payload: seq<Byte>)
  {
    var at := PortOffset(t);
    && AddressAt(b, t) && b[0] == 0 && b[1] == 0 && b[2] == frag
    && Number(b[at], b[at + 1]) == port && b[at + 2..] == payload
  }

  predicate HostOk(t: Target)
  {
    t.Domain? ==> ValidDomain(t.name)
  }

  lemma {:induction false} TwoOctets(b: seq<Byte>, n: nat)
    requires |b| == 2
    ensures FromBe(b) == Number(b[0], b[1]) < 0x1_0000
    ensures n < 0x1_0000 ==> (ToBe(n, 2) == b <==> Number(b[0], b[1]) == n)
  {
    assert b == [] + [b[0]] + [b[1]];
    FromBeStep([b[0]], b[1]);
    FromBeStep([], b[0]);
    assert [] + [b[0]] == [b[0]];
    Pow256Values();
    ToFromBe(b);
    if n < 0x1_0000 {
      FromToBe(n, 2);
    }
  }

  /** An address is decoded exactly when it stands there and a name is a host name. */
  lemma {:induction false} AddressExact(b: seq<Byte>, t: Target)
    requires |b| >= 7
    ensures DecodeAddress(b).Ok? && DecodeAddress(b).value.0 == t <==> AddressAt(b, t) && HostOk(t)
    ensures DecodeAddress(b).Ok? ==> DecodeAddress(b).value.1 == PortOffset(DecodeAddress(b).value.0)
  {
    hide Labels, ValidLabel;
  }

  lemma {:induction false} FragOctet(octet: Byte, sequence: nat, final: bool)
    ensures octet % 128 == sequence && (octet >= 128) == final <==>
      sequence <= 127 && octet == if final then sequence + 128 else sequence
  {
  }

  /** The octets spell the fragment: FRAG is its sequence number, with 128 added for the final one. */
  predicate Envelope(b: seq<Byte>, f: Fragment)
  {
    && f.sequence <= 127 && (f.final ==> f.sequence != 0) && f.port != 0 && HostOk(f.target)
    && Layout(b, if f.final then f.sequence + 128 else f.sequence, f.target, f.port, f.payload)
  }

  /** What is decoded is exactly what is spelt, fragments included. */
  lemma {:induction false} DecodeExact(b: seq<Byte>, f: Fragment)
    ensures DecodeFragment(b) == Ok(f) <==> Envelope(b, f)
  {
    hide DecodeFragment, Envelope;
    if DecodeFragment(b) == Ok(f) {
      DecodedIsEnvelope(b, f);
    }
    if Envelope(b, f) {
      EnvelopeIsDecoded(b, f);
    }
  }

  lemma {:induction false} DecodedIsEnvelope(b: seq<Byte>, f: Fragment)
    requires DecodeFragment(b) == Ok(f)
    ensures Envelope(b, f)
  {
    hide DecodeAddress, AddressAt, HostOk, FromBe, Number;
    FragOctet(b[2], f.sequence, f.final);
    AddressExact(b, f.target);
    RoomForPort(b, f.target);
    var at := PortOffset(f.target);
    TwoOctets(b[at..at + 2], f.port);
  }

  lemma {:induction false} EnvelopeIsDecoded(b: seq<Byte>, f: Fragment)
    requires Envelope(b, f)
    ensures DecodeFragment(b) == Ok(f)
  {
    hide DecodeAddress, AddressAt, HostOk, FromBe, Number;
    RoomForPort(b, f.target);
    FragOctet(b[2], f.sequence, f.final);
    AddressExact(b, f.target);
    var at := PortOffset(f.target);
    TwoOctets(b[at..at + 2], f.port);
  }

  lemma {:induction false} RoomForPort(b: seq<Byte>, t: Target)
    requires HostOk(t)
    ensures AddressAt(b, t) ==> |b| >= PortOffset(t) + 2 >= 8
  {
    hide Labels, ValidLabel;
  }

  /** The places determine the envelope. */
  lemma {:induction false} LayoutUnique(b: seq<Byte>, w: seq<Byte>, frag: nat, t: Target, port: nat, payload: seq<Byte>)
    requires Layout(b, frag, t, port, payload) && Layout(w, frag, t, port, payload)
    ensures b == w
  {
    var at := PortOffset(t);
    assert b[at] == w[at] && b[at + 1] == w[at + 1];
    forall i | 3 <= i < at ensures b[i] == w[i] {
      SameAddress(b, w, t, i);
    }
    assert |b| == at + 2 + |payload| == |w|;
    assert forall i :: at + 2 <= i < |b| ==> b[i] == b[at + 2..][i - at - 2] && w[i] == w[at + 2..][i - at - 2];
  }

  lemma {:induction false} SameAddress(b: seq<Byte>, w: seq<Byte>, t: Target, i: nat)
    requires AddressAt(b, t) && AddressAt(w, t) && 3 <= i < PortOffset(t)
    ensures b[i] == w[i]
  {
    match t
    case V4(a) => assert i >= 4 ==> b[4..8][i - 4] == w[4..8][i - 4];
    case V6(a) => assert i >= 4 ==> b[4..20][i - 4] == w[4..20][i - 4];
    case Domain(name) => assert i >= 5 ==> b[5..5 + |name|][i - 5] == w[5..5 + |name|][i - 5];
  }

  lemma {:induction false} EncodeLayout(d: Datagram)
    requires HostOk(d.target)
    ensures Layout([0, 0, 0] + Address(d.target) + ToBe(d.port, 2) + d.payload, 0, d.target, d.port, d.payload)
  {
    hide Labels, ValidLabel;
    var at := PortOffset(d.target);
    var w := [0, 0, 0] + Address(d.target) + ToBe(d.port, 2) + d.payload;
    assert |Address(d.target)| == at - 3;
    assert w[at..at + 2] == ToBe(d.port, 2);
    TwoOctets(w[at..at + 2], d.port);
    AddressPlaced(w, d.target, ToBe(d.port, 2) + d.payload);
  }

  lemma {:induction false} AddressPlaced(w: seq<Byte>, t: Target, tail: seq<Byte>)
    requires HostOk(t) && |tail| >= 2 && w == [0, 0, 0] + Address(t) + tail
    ensures AddressAt(w, t)
  {
    hide Labels, ValidLabel;
  }

  /** What is encoded: exactly the envelope of an unfragmented datagram, if it is not too large. */
  lemma {:induction false} EncodeExact(d: Datagram, b: seq<Byte>)
    ensures Encode(d) == Ok(b) <==> HostOk(d.target) && |b| <= 65_535 && Layout(b, 0, d.target, d.port, d.payload)
  {
    hide Labels, ValidLabel, Layout;
    if HostOk(d.target) {
      EncodeLayout(d);
      var w := [0, 0, 0] + Address(d.target) + ToBe(d.port, 2) + d.payload;
      if Layout(b, 0, d.target, d.port, d.payload) {
        LayoutUnique(b, w, 0, d.target, d.port, d.payload);
      }
    }
  }
}
