/**
 * The encrypted byte relay between two peers: length-prefixed frames over a byte stream that may split
 * reads anywhere, and sending and receiving ciphers that change keys in lockstep.
 */
module NoiseRelay {
  import opened Wrappers
  import opened Bytes
  import opened Sequences

  const MAX_MESSAGE := 65_535
  const TAG_BYTES := 16
  const CHUNK_BYTES := 32_768
  const REKEY_INTERVAL := 1_048_576
  const MAX_COUNT: nat := 0xffff_ffff_ffff_ffff

  /** The position of one direction of the transport: the key epoch and the message number within the session. */
  datatype Position = Position(epoch: nat, nonce: nat)

  /** The cipher, known only by the law that opening undoes sealing at the same position. */
  datatype Cipher = Cipher(seal: (Position, seq<Byte>) -> seq<Byte>, open: (Position, seq<Byte>) -> Option<seq<Byte>>)

  ghost predicate Correct(c: Cipher)
  {
    forall p, text :: |c.seal(p, text)| == |text| + 16 && c.open(p, c.seal(p, text)) == Some(text)
  }

  /** One direction at one endpoint: where its cipher stands and how many messages it has counted. */
  datatype Direction = Direction(position: Position, messages: nat)

  const START := Direction(Position(0, 0), 0)

  /** After one message: the count saturates, and every full interval the key is replaced. */
  function Advance(d: Direction): Direction
  {
    var messages := if d.messages < MAX_COUNT then d.messages + 1 else MAX_COUNT;
    var epoch := if messages % REKEY_INTERVAL == 0 then d.position.epoch + 1 else d.position.epoch;
    Direction(Position(epoch, d.position.nonce + 1), messages)
  }

  // ---------------------------------------------------------------- frames

  function Frame(payload: seq<Byte>): seq<Byte>
  {
    ToBe(|payload|, 2) + payload
  }

  datatype Framed = Eof | TruncatedLength | BadLength | TruncatedBody | Received(payload: seq<Byte>, rest: seq<Byte>)

  /** What reading one frame from the front of the bytes yields. */
  function ParseFrame(wire: seq<Byte>, maximum: nat): Framed
  {
    if wire == [] then Eof
    else if |wire| == 1 then TruncatedLength
    else
      var length := FromBe(wire[..2]);
      if length == 0 || length > maximum then BadLength
      else if |wire| < 2 + length then TruncatedBody
      else Received(wire[2..2 + length], wire[2 + length..])
  }

  lemma {:induction false} ParseWhole(payload: seq<Byte>, rest: seq<Byte>, maximum: nat)
    requires 1 <= |payload| <= maximum && |payload| <= MAX_MESSAGE
    ensures ParseFrame(Frame(payload) + rest, maximum) == Received(payload, rest)
  {
    var wire := Frame(payload) + rest;
    Pow256Values();
    FromToBe(|payload|, 2);
    assert wire[..2] == ToBe(|payload|, 2);
    assert wire[2..2 + |payload|] == payload && wire[2 + |payload|..] == rest;
  }

  /** A frame cut short anywhere but at its start is reported as truncated, never as another frame. */
  lemma {:induction false} ParseCut(payload: seq<Byte>, k: nat, maximum: nat)
    requires 1 <= |payload| <= maximum && |payload| <= MAX_MESSAGE && 0 < k < |Frame(payload)|
    ensures ParseFrame(Frame(payload)[..k], maximum) == if k == 1 then TruncatedLength else TruncatedBody
  {
    Pow256Values();
    FromToBe(|payload|, 2);
    if k >= 2 {
      assert Frame(payload)[..k][..2] == ToBe(|payload|, 2);
    }
  }

  /** What the first bytes say: nothing, half a length, a bad length, half a frame, or a frame. */
  lemma {:induction false} ParseExact(wire: seq<Byte>, maximum: nat)
    ensures match ParseFrame(wire, maximum)
      case Eof => wire == []
      case TruncatedLength => |wire| == 1
      case BadLength => |wire| >= 2 && (FromBe(wire[..2]) == 0 || FromBe(wire[..2]) > maximum)
      case TruncatedBody => |wire| >= 2 && 1 <= FromBe(wire[..2]) <= maximum && |wire| < 2 + FromBe(wire[..2])
      case Received(payload, rest) => 1 <= |payload| <= maximum && wire == Frame(payload) + rest
  {
    hide ToBe, FromBe;
    if |wire| >= 2 {
      ToFromBe(wire[..2]);
      assert wire == wire[..2] + wire[2..];
    }
  }

  // ---------------------------------------------------------------- both ends of one direction

  /** The bytes sent for the given plaintext chunks. */
  function Wire(c: Cipher, d: Direction, chunks: seq<seq<Byte>>): seq<Byte>
    decreases |chunks|
  {
    if chunks == [] then [] else Frame(c.seal(d.position, chunks[0])) + Wire(c, Advance(d), chunks[1..])
  }

  datatype End = CleanEof | Truncated | Rejected

  /** The plaintext delivered from the received bytes, and how reading ends. */
  function Receive(c: Cipher, d: Direction, wire: seq<Byte>): (seq<Byte>, End)
    decreases |wire|
  {
    match ParseFrame(wire, MAX_MESSAGE)
    case Eof => ([], CleanEof)
    case TruncatedLength => ([], Truncated)
    case TruncatedBody => ([], Truncated)
    case BadLength => ([], Rejected)
    case Received(frame, rest) =>
      if |frame| < TAG_BYTES then ([], Rejected)
      else match c.open(d.position, frame)
        case None => ([], Rejected)
        case Some(text) => var (more, end) := Receive(c, Advance(d), rest); (text + more, end)
  }

  /** One frame at the front: too short for its tag, refused by the cipher, or delivered before what follows. */
  lemma {:induction false} ReceiveFrame(c: Cipher, d: Direction, frame: seq<Byte>, rest: seq<Byte>)
    requires 1 <= |frame| <= 65_535
    ensures Receive(c, d, Frame(frame) + rest) ==
      if |frame| < 16 || c.open(d.position, frame) == None then ([], Rejected)
      else (c.open(d.position, frame).value + Receive(c, Advance(d), rest).0, Receive(c, Advance(d), rest).1)
  {
    hide ParseFrame, Frame;
    ParseWhole(frame, rest, 65_535);
  }

  predicate ReadChunks(chunks: seq<seq<Byte>>)
  {
    forall i :: 0 <= i < |chunks| ==> 1 <= |chunks[i]| <= 32_768
  }

  /** How many whole frames the first `k` bytes of the wire hold. */
  function WholeFrames(c: Cipher, d: Direction, chunks: seq<seq<Byte>>, k: nat): (m: nat)
    ensures m <= |chunks|
    decreases |chunks|
  {
    if chunks == [] then 0
    else
      var size := |Frame(c.seal(d.position, chunks[0]))|;
      if k < size then 0 else 1 + WholeFrames(c, Advance(d), chunks[1..], k - size)
  }

  /**
   * Wherever the connection is cut, the receiver delivers exactly the chunks whose frames arrived whole,
   * each opened at the position it was sealed at; it ends cleanly exactly when the cut is between frames.
   */
  lemma {:induction false} RelayedPrefix(c: Cipher, d: Direction, chunks: seq<seq<Byte>>, k: nat)
    requires Correct(c) && ReadChunks(chunks) && k <= |Wire(c, d, chunks)|
    ensures var m := WholeFrames(c, d, chunks, k);
      var end := if |Wire(c, d, chunks[..m])| == k then CleanEof else Truncated;
      Receive(c, d, Wire(c, d, chunks)[..k]) == (Concat(chunks[..m]), end)
    decreases |chunks|
  {
    hide Correct, ParseFrame, Frame;
    if chunks == [] {
      ReceiveNothing(c, d);
    } else {
      var sealed := c.seal(d.position, chunks[0]);
      if k >= |Frame(sealed)| {
        RelayedPrefix(c, Advance(d), chunks[1..], k - |Frame(sealed)|);
        FirstFrameWhole(c, d, chunks, k);
      } else {
        FirstFrameCut(c, d, chunks, k);
      }
    }
  }

  lemma {:induction false} ReceiveNothing(c: Cipher, d: Direction)
    ensures Receive(c, d, []) == ([], CleanEof)
  {
  }

  lemma {:induction false} SealedSize(c: Cipher, p: Position, text: seq<Byte>)
    requires Correct(c)
    ensures |c.seal(p, text)| == |text| + TAG_BYTES && c.open(p, c.seal(p, text)) == Some(text)
  {
  }

  lemma {:induction false} FirstFrameWhole(c: Cipher, d: Direction, chunks: seq<seq<Byte>>, k: nat)
    requires Correct(c) && ReadChunks(chunks) && chunks != []
    requires |Frame(c.seal(d.position, chunks[0]))| <= k <= |Wire(c, d, chunks)|
    ensures var k' := k - |Frame(c.seal(d.position, chunks[0]))|;
      var (more, end) := Receive(c, Advance(d), Wire(c, Advance(d), chunks[1..])[..k']);
      Receive(c, d, Wire(c, d, chunks)[..k]) == (chunks[0] + more, end)
    ensures var m := WholeFrames(c, d, chunks, k);
      && m >= 1 && m - 1 == WholeFrames(c, Advance(d), chunks[1..], k - |Frame(c.seal(d.position, chunks[0]))|)
      && Concat(chunks[..m]) == chunks[0] + Concat(chunks[1..][..m - 1])
      && |Wire(c, d, chunks[..m])|
         == |Frame(c.seal(d.position, chunks[0]))| + |Wire(c, Advance(d), chunks[1..][..m - 1])|
  {
    hide Correct, ParseFrame;
    var sealed := c.seal(d.position, chunks[0]);
    SealedSize(c, d.position, chunks[0]);
    var rest := Wire(c, Advance(d), chunks[1..])[..k - |Frame(sealed)|];
    assert Wire(c, d, chunks)[..k] == Frame(sealed) + rest;
    ParseWhole(sealed, rest, MAX_MESSAGE);
    var m := WholeFrames(c, d, chunks, k);
    assert chunks[..m][1..] == chunks[1..][..m - 1] && chunks[..m][0] == chunks[0];
  }

  lemma {:induction false} FirstFrameCut(c: Cipher, d: Direction, chunks: seq<seq<Byte>>, k: nat)
    requires Correct(c) && ReadChunks(chunks) && chunks != [] && k < |Frame(c.seal(d.position, chunks[0]))|
    ensures k <= |Wire(c, d, chunks)| && WholeFrames(c, d, chunks, k) == 0 && chunks[..0] == []
    ensures Receive(c, d, Wire(c, d, chunks)[..k]) == ([], if k == 0 then CleanEof else Truncated)
  {
    hide Correct;
    var sealed := c.seal(d.position, chunks[0]);
    SealedSize(c, d.position, chunks[0]);
    assert Wire(c, d, chunks)[..k] == Frame(sealed)[..k];
    if k > 0 {
      ParseCut(sealed, k, MAX_MESSAGE);
    }
  }

  lemma {:induction false} ConcatSplit(chunks: seq<seq<Byte>>, m: nat)
    requires m <= |chunks|
    ensures Concat(chunks) == Concat(chunks[..m]) + Concat(chunks[m..])
  {
    if m == 0 {
      assert chunks[..0] == [] && chunks[0..] == chunks;
    } else {
      ConcatSplit(chunks[1..], m - 1);
      assert chunks[..m][1..] == chunks[1..][..m - 1] && chunks[m..] == chunks[1..][m - 1..];
    }
  }

  lemma {:induction false} FewerFramesLess(c: Cipher, d: Direction, chunks: seq<seq<Byte>>, k: nat)
    requires ReadChunks(chunks) && k <= |Wire(c, d, chunks)|
    ensures WholeFrames(c, d, chunks, k) == |chunks| <==> k == |Wire(c, d, chunks)|
    decreases |chunks|
  {
    if chunks == [] {
    } else {
      var size := |Frame(c.seal(d.position, chunks[0]))|;
      if k >= size {
        FewerFramesLess(c, Advance(d), chunks[1..], k - size);
      }
    }
  }

  lemma {:induction false} FewerChunksLess(chunks: seq<seq<Byte>>, m: nat)
    requires ReadChunks(chunks) && m <= |chunks|
    ensures Concat(chunks[..m]) <= Concat(chunks)
    ensures Concat(chunks[..m]) == Concat(chunks) <==> m == |chunks|
  {
    ConcatSplit(chunks, m);
    if m < |chunks| {
      assert chunks[m..][0] == chunks[m];
    } else {
      assert chunks[..m] == chunks;
    }
  }

  /**
   * What is delivered is always a prefix of what was sent, and it is all of it exactly when every byte
   * arrived. Reading ends cleanly exactly at the end of a frame.
   */
  lemma {:induction false} RelayIsFaithful(c: Cipher, chunks: seq<seq<Byte>>, k: nat)
    requires Correct(c) && ReadChunks(chunks) && k <= |Wire(c, START, chunks)|
    ensures var (text, end) := Receive(c, START, Wire(c, START, chunks)[..k]);
      && text <= Concat(chunks)
      && (text == Concat(chunks) <==> k == |Wire(c, START, chunks)|)
      && (end == CleanEof <==> exists m :: 0 <= m <= |chunks| && EndsFrame(c, chunks, m, k))
      && (end == CleanEof || end == Truncated)
  {
    hide Receive, Wire, Correct, Concat;
    RelayedPrefix(c, START, chunks, k);
    var m := WholeFrames(c, START, chunks, k);
    FewerFramesLess(c, START, chunks, k);
    FewerChunksLess(chunks, m);
    forall j | 0 <= j <= |chunks| && EndsFrame(c, chunks, j, k) ensures j == m {
      WholeAtEnd(c, START, chunks, j);
    }
    assert |Wire(c, START, chunks[..m])| == k ==> EndsFrame(c, chunks, m, k);
  }

  /** The first `k` bytes are exactly the frames of the first `m` chunks. */
  predicate EndsFrame(c: Cipher, chunks: seq<seq<Byte>>, m: nat, k: nat)
    requires m <= |chunks|
  {
    k == |Wire(c, START, chunks[..m])|
  }

  lemma {:induction false} WholeAtEnd(c: Cipher, d: Direction, chunks: seq<seq<Byte>>, m: nat)
    requires m <= |chunks|
    ensures WholeFrames(c, d, chunks, |Wire(c, d, chunks[..m])|) == m
    decreases |chunks|
  {
    if m > 0 {
      WholeAtEnd(c, Advance(d), chunks[1..], m - 1);
      assert chunks[..m][1..] == chunks[1..][..m - 1];
    } else if chunks != [] {
      assert chunks[..0] == [];
    }
  }

  /** A connection that is cut between two frames ends as cleanly as a complete one, with less delivered. */
  lemma {:induction false} CleanEndIsNotComplete(c: Cipher)
    requires Correct(c)
    ensures var chunks := [[1], [2]];
      var cut := |Wire(c, START, [[1]])|;
      && cut <= |Wire(c, START, chunks)| && Receive(c, START, Wire(c, START, chunks)[..cut]) == ([1], CleanEof)
      && Concat(chunks) == [1, 2]
  {
    hide Receive, Correct;
    var chunks: seq<seq<Byte>> := [[1], [2]];
    assert chunks[..1] == [[1]] && Concat([[1]]) == [1] && Concat(chunks) == [1, 2] by {
      assert chunks[1..] == [[2]] && [[2]][1..] == [] && [[1]][1..] == [];
    }
    var cut := |Wire(c, START, [[1]])|;
    WireGrows(c, START, chunks, 1);
    RelayedPrefix(c, START, chunks, cut);
    WholeAtEnd(c, START, chunks, 1);
  }

  lemma {:induction false} WireGrows(c: Cipher, d: Direction, chunks: seq<seq<Byte>>, m: nat)
    requires m <= |chunks|
    ensures |Wire(c, d, chunks[..m])| <= |Wire(c, d, chunks)|
    decreases |chunks|
  {
    if m == 0 {
    } else {
      WireGrows(c, Advance(d), chunks[1..], m - 1);
      assert chunks[..m][1..] == chunks[1..][..m - 1];
    }
  }

  // ---------------------------------------------------------------- rekeying

  /** The direction after `n` messages. */
  function After(n: nat): Direction
  {
    if n == 0 then START else Advance(After(n - 1))
  }

  /** Message `n` (counting from zero) is sealed and opened in epoch `n` divided by the rekey interval. */
  lemma {:induction false} EpochOfMessage(n: nat)
    requires n <= 0xffff_ffff_ffff_ffff
    ensures After(n) == Direction(Position(n / 1_048_576, n), n)
  {
    if n == 0 {
    } else {
      EpochOfMessage(n - 1);
      NextQuotient(n - 1, REKEY_INTERVAL);
    }
  }

  lemma {:induction false} NextQuotient(n: nat, d: nat)
    requires d > 1
    ensures (n + 1) / d == if (n + 1) % d == 0 then n / d + 1 else n / d
  {
    if n % d + 1 == d {
      DivUnique(n + 1, d, n / d + 1, 0);
    } else {
      DivUnique(n + 1, d, n / d, n % d + 1);
    }
  }

  /** Past the last countable message the key is never replaced again, at either end. */
  lemma {:induction false} EpochSaturates(n: nat)
    requires n > 0xffff_ffff_ffff_ffff
    ensures After(n) == Direction(Position(0xffff_ffff_ffff_ffff / 1_048_576, n), 0xffff_ffff_ffff_ffff)
    decreases n
  {
    if n == MAX_COUNT + 1 {
      EpochOfMessage(MAX_COUNT);
    } else {
      EpochSaturates(n - 1);
    }
  }

  /** The lock-protected transport of one endpoint, used by its two relay tasks. */
  datatype Endpoint = Endpoint(outgoing: Direction, incoming: Direction)

  /** One use of the transport: the sending task seals a chunk, or the receiving task opens a frame. */
  datatype Use = Send(chunk: seq<Byte>) | Take(frame: seq<Byte>)

  /** What an endpoint has written, what it has delivered, and whether the receiving task gave up. */
  datatype Peer = Peer(endpoint: Endpoint, wire: seq<Byte>, delivered: seq<Byte>, rejected: bool)

  /** The plaintext of a frame; `None` if it is refused. */
  function Opened(c: Cipher, d: Direction, frame: seq<Byte>): Option<seq<Byte>>
  {
    if |frame| < TAG_BYTES then None else c.open(d.position, frame)
  }

  function Step(c: Cipher, p: Peer, u: Use): Peer
  {
    match u
    case Send(chunk) =>
      var sealed := c.seal(p.endpoint.outgoing.position, chunk);
      p.(endpoint := p.endpoint.(outgoing := Advance(p.endpoint.outgoing)), wire := p.wire + Frame(sealed))
    case Take(frame) =>
      var text := Opened(c, p.endpoint.incoming, frame);
      if p.rejected then p
      else if text.None? then p.(rejected := true)
      else p.(endpoint := p.endpoint.(incoming := Advance(p.endpoint.incoming)), delivered := p.delivered + text.value)
  }

  /** The endpoint after the given uses, in the order in which the tasks got hold of the transport. */
  function Run(c: Cipher, uses: seq<Use>): Peer
  {
    if uses == [] then Peer(Endpoint(START, START), [], [], false)
    else Step(c, Run(c, uses[..|uses| - 1]), uses[|uses| - 1])
  }

  function Sent(uses: seq<Use>): seq<seq<Byte>>
  {
    if uses == [] then []
    else
      var last := uses[|uses| - 1];
      Sent(uses[..|uses| - 1]) + if last.Send? then [last.chunk] else []
  }

  function Taken(uses: seq<Use>): seq<seq<Byte>>
  {
    if uses == [] then []
    else
      var last := uses[|uses| - 1];
      Taken(uses[..|uses| - 1]) + if last.Take? then [last.frame] else []
  }

  /** The bytes of the given frames. */
  function FrameBytes(frames: seq<seq<Byte>>): seq<Byte>
  {
    if frames == [] then [] else Frame(frames[0]) + FrameBytes(frames[1..])
  }

  predicate Legal(frames: seq<seq<Byte>>)
  {
    forall i :: 0 <= i < |frames| ==> 1 <= |frames[i]| <= 65_535
  }

  lemma {:induction false} FrameBytesAppend(frames: seq<seq<Byte>>, last: seq<Byte>)
    ensures FrameBytes(frames + [last]) == FrameBytes(frames) + Frame(last)
  {
    hide Frame;
    if frames == [] {
      assert frames + [last] == [last] && FrameBytes([last][1..]) == [];
    } else {
      FrameBytesAppend(frames[1..], last);
      assert (frames + [last])[1..] == frames[1..] + [last];
    }
  }

  /** How one more frame continues what was received: not at all once a frame was refused. */
  function Continued(c: Cipher, d: Direction, r: (seq<Byte>, End), last: seq<Byte>): (seq<Byte>, End)
  {
    var text := Opened(c, d, last);
    if r.1 != CleanEof then r else if text.None? then (r.0, Rejected) else (r.0 + text.value, CleanEof)
  }

  lemma {:induction false} ReceiveLast(c: Cipher, d: Direction, n: nat, frames: seq<seq<Byte>>, last: seq<Byte>)
    requires Legal(frames) && 1 <= |last| <= MAX_MESSAGE && d == After(n)
    ensures Receive(c, d, FrameBytes(frames + [last]))
         == Continued(c, After(n + |frames|), Receive(c, d, FrameBytes(frames)), last)
    decreases |frames|
  {
    hide Receive, Frame, FrameBytes, Continued, Advance;
    if frames == [] {
      assert frames + [last] == [last];
      ReceiveOnly(c, d, last);
    } else {
      var first, rest := frames[0], frames[1..];
      assert (frames + [last])[0] == first && (frames + [last])[1..] == rest + [last];
      FirstFrame(frames);
      FirstFrame(frames + [last]);
      ReceiveOne(c, d, first, FrameBytes(rest));
      ReceiveOne(c, d, first, FrameBytes(rest + [last]));
      ReceiveLast(c, Advance(d), n + 1, rest, last);
      var later := Receive(c, Advance(d), FrameBytes(rest));
      PrecededThenContinued(c, After(n + |frames|), Opened(c, d, first), later, last);
    }
  }

  lemma {:induction false} ReceiveOnly(c: Cipher, d: Direction, last: seq<Byte>)
    requires 1 <= |last| <= MAX_MESSAGE
    ensures Receive(c, d, FrameBytes([last])) == Continued(c, d, Receive(c, d, FrameBytes([])), last)
  {
    hide Receive, Frame, FrameBytes, Advance;
    NoFrames();
    FirstFrame([last]);
    assert [last][1..] == [];
    ReceiveNothing(c, d);
    ReceiveNothing(c, Advance(d));
    ReceiveOne(c, d, last, []);
    var text := Opened(c, d, last);
    assert text.Some? ==> text.value + [] == [] + text.value;
  }

  lemma {:induction false} NoFrames()
    ensures FrameBytes([]) == []
  {
  }

  lemma {:induction false} FirstFrame(frames: seq<seq<Byte>>)
    requires frames != []
    ensures FrameBytes(frames) == Frame(frames[0]) + FrameBytes(frames[1..])
  {
  }

  /** What a first frame contributes before the rest is received. */
  function Preceded(text: Option<seq<Byte>>, r: (seq<Byte>, End)): (seq<Byte>, End)
  {
    if text.None? then ([], Rejected) else (text.value + r.0, r.1)
  }

  lemma {:induction false} ReceiveOne(c: Cipher, d: Direction, frame: seq<Byte>, rest: seq<Byte>)
    requires 1 <= |frame| <= MAX_MESSAGE
    ensures Receive(c, d, Frame(frame) + rest) == Preceded(Opened(c, d, frame), Receive(c, Advance(d), rest))
  {
    hide ParseFrame, Frame;
    ParseWhole(frame, rest, MAX_MESSAGE);
  }

  lemma {:induction false} PrecededThenContinued(
    c: Cipher, e: Direction, first: Option<seq<Byte>>, r: (seq<Byte>, End), last: seq<Byte>)
    ensures Preceded(first, Continued(c, e, r, last)) == Continued(c, e, Preceded(first, r), last)
  {
    if first.Some? && Opened(c, e, last).Some? {
      Regroup(first.value, r.0, Opened(c, e, last).value);
    }
  }

  lemma {:induction false} TakenLegal(uses: seq<Use>, i: nat)
    requires i <= |uses| && Legal(Taken(uses))
    ensures Legal(Taken(uses[..i]))
    decreases |uses|
  {
    if i < |uses| {
      var init := uses[..|uses| - 1];
      assert Taken(init) <= Taken(uses);
      assert forall j :: 0 <= j < |Taken(init)| ==> Taken(init)[j] == Taken(uses)[j];
      TakenLegal(init, i);
      assert init[..i] == uses[..i];
    } else {
      assert uses[..i] == uses;
    }
  }

  /** Both directions stand, and have produced, what the chunks sent and the frames taken say on their own. */
  ghost predicate AsAlone(c: Cipher, p: Peer, sent: seq<seq<Byte>>, taken: seq<seq<Byte>>)
  {
    && p.endpoint.outgoing == After(|sent|) && p.wire == Wire(c, START, sent)
    && (p.delivered, if p.rejected then Rejected else CleanEof) == Receive(c, START, FrameBytes(taken))
    && (!p.rejected ==> p.endpoint.incoming == After(|taken|))
  }

  lemma {:induction false} SendStep(c: Cipher, p: Peer, sent: seq<seq<Byte>>, taken: seq<seq<Byte>>, chunk: seq<Byte>)
    requires AsAlone(c, p, sent, taken)
    ensures AsAlone(c, Step(c, p, Send(chunk)), sent + [chunk], taken)
  {
    hide Receive, Wire, Frame, FrameBytes, Advance;
    WireAppend(c, START, 0, sent, chunk);
  }

  lemma {:induction false} TakeStep(c: Cipher, p: Peer, sent: seq<seq<Byte>>, taken: seq<seq<Byte>>, frame: seq<Byte>)
    requires AsAlone(c, p, sent, taken) && Legal(taken) && 1 <= |frame| <= MAX_MESSAGE
    ensures AsAlone(c, Step(c, p, Take(frame)), sent, taken + [frame])
  {
    hide Receive, Wire, Frame, FrameBytes, Advance;
    ReceiveLast(c, START, 0, taken, frame);
  }

  /**
   * However the two tasks of an endpoint interleave on their shared transport, each does what it would do
   * alone: the bytes written are the frames of the chunks sent, and what is delivered is what the taken
   * frames yield.
   */
  lemma {:induction false} TasksDoNotInterfere(c: Cipher, uses: seq<Use>)
    requires Legal(Taken(uses))
    ensures AsAlone(c, Run(c, uses), Sent(uses), Taken(uses))
  {
    hide Receive, Wire, FrameBytes, Step, AsAlone;
    if uses == [] {
      NothingUsed(c);
    } else {
      var n := |uses|;
      var init, last := uses[..n - 1], uses[n - 1];
      TakenLegal(uses, n - 1);
      TasksDoNotInterfere(c, init);
      match last
      case Send(chunk) =>
        SendStep(c, Run(c, init), Sent(init), Taken(init), chunk);
        assert Taken(uses) == Taken(init);
      case Take(frame) =>
        assert Taken(uses)[|Taken(init)|] == frame;
        TakeStep(c, Run(c, init), Sent(init), Taken(init), frame);
        assert Sent(uses) == Sent(init);
    }
  }

  lemma {:induction false} NothingUsed(c: Cipher)
    ensures AsAlone(c, Run(c, []), [], [])
  {
    NoFrames();
    ReceiveNothing(c, START);
  }

  /**
   * Two peers, each with both tasks at work in any order: frames taken from what the other wrote are never
   * refused, deliver a prefix of what the other sent, and the two ends stand at the same key and number.
   */
  lemma {:induction false} PeersAgree(c: Cipher, mine: seq<Use>, theirs: seq<Use>)
    requires Correct(c) && ReadChunks(Sent(mine)) && Legal(Taken(mine)) && Legal(Taken(theirs))
    requires FrameBytes(Taken(theirs)) <= Run(c, mine).wire
    ensures !Run(c, theirs).rejected && Run(c, theirs).delivered <= Concat(Sent(mine))
    ensures |Taken(theirs)| == |Sent(mine)| ==> Run(c, mine).endpoint.outgoing == Run(c, theirs).endpoint.incoming
    ensures FrameBytes(Taken(theirs)) == Run(c, mine).wire ==> Run(c, theirs).delivered == Concat(Sent(mine))
  {
    hide Run, Receive, Wire, FrameBytes, Correct, Concat;
    TasksDoNotInterfere(c, mine);
    TasksDoNotInterfere(c, theirs);
    var wire, k := Wire(c, START, Sent(mine)), |FrameBytes(Taken(theirs))|;
    assert wire[..k] == FrameBytes(Taken(theirs));
    RelayIsFaithful(c, Sent(mine), k);
  }

  // ---------------------------------------------------------------- the tasks

  /** A byte stream whose reads may return any positive number of the bytes asked for. */
  class Stream {
    const data: seq<Byte>
    const appetite: nat -> nat
    var at: nat
    var served: nat

    predicate Valid()
      reads this
    {
      at <= |data|
    }

    function Rest(): seq<Byte>
      requires Valid()
      reads this
    {
      data[at..]
    }

    constructor (data: seq<Byte>, appetite: nat -> nat)
      ensures Valid() && Rest() == data
    {
      this.data, this.appetite := data, appetite;
      at, served := 0, 0;
    }

    method Read(space: nat) returns (chunk: seq<Byte>)
      requires Valid()
      modifies this
      ensures Valid() && chunk + Rest() == old(Rest()) && |chunk| <= space
      ensures chunk == [] <==> space == 0 || old(Rest()) == []
    {
      var most := if space <= |data| - at then space else |data| - at;
      var wish := appetite(served);
      var n := if wish == 0 && most > 0 then 1 else if wish <= most then wish else most;
      chunk := data[at..at + n];
      at, served := at + n, served + 1;
    }

    /** Reads exactly `n` bytes, or reports that the stream ended first. */
    method ReadExact(n: nat) returns (r: Option<seq<Byte>>)
      requires Valid()
      modifies this
      ensures Valid()
      ensures r.Some? <==> n <= |old(Rest())|
      ensures r.Some? ==> r.value == old(Rest())[..n] && Rest() == old(Rest())[n..]
    {
      hide Rest;
      var got: seq<Byte> := [];
      ghost var before := Rest();
      assert got + before == before;
      while |got| < n
        invariant Valid() && got + Rest() == before && |got| <= n
        decreases n - |got|
      {
        var chunk := Read(n - |got|);
        if chunk == [] {
          assert chunk + Rest() == Rest();
          return None;
        }
        Regroup(got, chunk, Rest());
        got := got + chunk;
      }
      r := Some(got);
    }
  }

  /** Reads the two length bytes; fewer come only at the end of the stream. */
  method ReadLength(reader: Stream) returns (length: seq<Byte>)
    requires reader.Valid()
    modifies reader
    ensures reader.Valid() && length + reader.Rest() == old(reader.Rest()) && |length| <= 2
    ensures |length| < 2 ==> reader.Rest() == []
  {
    hide Stream.Rest;
    length := [];
    ghost var wire := reader.Rest();
    assert length + wire == wire;
    while |length| < 2
      invariant reader.Valid() && length + reader.Rest() == wire && |length| <= 2
      decreases 2 - |length|
    {
      var chunk := reader.Read(2 - |length|);
      if chunk == [] {
        assert chunk + reader.Rest() == reader.Rest();
        return;
      }
      Regroup(length, chunk, reader.Rest());
      length := length + chunk;
    }
  }

  /** Reads one frame, however the stream splits it. */
  method ReadFrameOrEof(reader: Stream, maximum: nat) returns (r: Framed)
    requires reader.Valid()
    modifies reader
    ensures reader.Valid() && r == ParseFrame(old(reader.Rest()), maximum)
    ensures r.Received? ==> reader.Rest() == r.rest
  {
    hide FromBe, Pow256, Stream.Rest;
    var length := ReadLength(reader);
    ghost var body := reader.Rest();
    if |length| < 2 {
      assert length + [] == length;
      return if length == [] then Eof else TruncatedLength;
    }
    var n := FromBe(length);
    Headed(length, body, n);
    if n == 0 || n > maximum { return BadLength; }
    var frame := reader.ReadExact(n);
    if frame.None? { return TruncatedBody; }
    r := Received(frame.value, reader.Rest());
  }

  lemma {:induction false} Headed(length: seq<Byte>, body: seq<Byte>, n: nat)
    requires |length| == 2
    ensures var wire := length + body;
      && wire[..2] == length && |wire| == 2 + |body|
      && (n <= |body| ==> wire[2..2 + n] == body[..n] && wire[2 + n..] == body[n..])
  {
  }

  function Prepend(text: seq<Byte>, r: (seq<Byte>, End)): (seq<Byte>, End)
  {
    (text + r.0, r.1)
  }

  /** The receiving task: for every way of splitting reads it delivers what `Receive` says. */
  method DecryptDirection(c: Cipher, encrypted: Stream) returns (plaintext: seq<Byte>, end: End)
    requires encrypted.Valid()
    modifies encrypted
    ensures (plaintext, end) == Receive(c, START, old(encrypted.Rest()))
  {
    hide Stream.Rest;
    var d := START;
    plaintext := [];
    assert [] + Receive(c, START, encrypted.Rest()).0 == Receive(c, START, encrypted.Rest()).0;
    while true
      invariant encrypted.Valid()
      invariant Prepend(plaintext, Receive(c, d, encrypted.Rest())) == Receive(c, START, old(encrypted.Rest()))
      decreases |encrypted.Rest()|
    {
      ghost var rest := encrypted.Rest();
      var r := ReadFrameOrEof(encrypted, MAX_MESSAGE);
      assert plaintext + [] == plaintext;
      match r
      case Eof => return plaintext, CleanEof;
      case TruncatedLength => return plaintext, Truncated;
      case TruncatedBody => return plaintext, Truncated;
      case BadLength => return plaintext, Rejected;
      case Received(frame, _) =>
        if |frame| < TAG_BYTES { return plaintext, Rejected; }
        var text := c.open(d.position, frame);
        if text.None? { return plaintext, Rejected; }
        ghost var more := Receive(c, Advance(d), encrypted.Rest());
        assert Receive(c, d, rest) == (text.value + more.0, more.1);
        assert plaintext + (text.value + more.0) == plaintext + text.value + more.0;
        plaintext := plaintext + text.value;
        d := Advance(d);
    }
  }

  lemma {:induction false} WireAppend(c: Cipher, d: Direction, n: nat, chunks: seq<seq<Byte>>, last: seq<Byte>)
    requires d == After(n)
    ensures Wire(c, d, chunks + [last]) == Wire(c, d, chunks) + Frame(c.seal(After(n + |chunks|).position, last))
    decreases |chunks|
  {
    if chunks == [] {
      assert chunks + [last] == [last] && Wire(c, Advance(d), [last][1..]) == [];
    } else {
      WireAppend(c, Advance(d), n + 1, chunks[1..], last);
      assert (chunks + [last])[1..] == chunks[1..] + [last];
    }
  }

  lemma {:induction false} NoChunks(rest: seq<Byte>)
    ensures ReadChunks([]) && Concat([]) + rest == rest
  {
    assert Concat([]) == [];
  }

  lemma {:induction false} ChunkStep(chunks: seq<seq<Byte>>, chunk: seq<Byte>, rest: seq<Byte>, whole: seq<Byte>)
    requires ReadChunks(chunks) && 1 <= |chunk| <= CHUNK_BYTES && Concat(chunks) + (chunk + rest) == whole
    ensures ReadChunks(chunks + [chunk]) && Concat(chunks + [chunk]) + rest == whole
  {
    hide Concat;
    ConcatAppend(chunks, chunk);
    assert Concat(chunks) + (chunk + rest) == (Concat(chunks) + chunk) + rest;
  }

  /** The sending task: every frame has a legal length, and what is sent is the input, chunk by chunk. */
  method EncryptDirection(c: Cipher, plaintext: Stream) returns (wire: seq<Byte>, ghost chunks: seq<seq<Byte>>)
    requires Correct(c) && plaintext.Valid()
    modifies plaintext
    ensures ReadChunks(chunks) && Concat(chunks) == old(plaintext.Rest()) && wire == Wire(c, START, chunks)
  {
    hide ReadChunks, Concat, Stream.Rest;
    var d := START;
    wire, chunks := [], [];
    NoChunks(plaintext.Rest());
    while true
      invariant plaintext.Valid() && d == After(|chunks|)
      invariant ReadChunks(chunks) && Concat(chunks) + plaintext.Rest() == old(plaintext.Rest())
      invariant wire == Wire(c, START, chunks)
      decreases |plaintext.Rest()|
    {
      var chunk := plaintext.Read(CHUNK_BYTES);
      if chunk == [] { return; }
      var sealed := c.seal(d.position, chunk);
      d := Advance(d);
      assert 1 <= |sealed| <= MAX_MESSAGE;
      ChunkStep(chunks, chunk, plaintext.Rest(), old(plaintext.Rest()));
      WireAppend(c, START, 0, chunks, chunk);
      wire := wire + Frame(sealed);
      chunks := chunks + [chunk];
    }
  }
}
