/** The host protocol as a parser of frames, and the flat reference definition it agrees with. */
module ReceiveSpec {
  import opened Bytes

  const ETX: byte := 0x03
  const BLOCK: byte := 0x81

  /** Headers that are dropped on their own. */
  predicate IsIgnored(h: byte) { h >= 0x89 }

  /** Operand bytes of every header but BLOCK. */
  function PayloadLength(h: byte): nat {
    if h < 0x40 then (if h % 8 == 7 && !Bit4(h) then 6 else 1)
    else if h < 0x70 then 0
    else if h < 0x80 then (if h % 8 == 7 then 12 else 2)
    else if h < 0x87 then 0
    else 1
  }

  /** How many bytes follow the two length bytes of a block. */
  function BlockLength(lo: byte, hi: byte): nat { Turns(lo) + 256 * hi }

  datatype Frame = Frame(header: byte, payload: seq<byte>, terminator: byte)

  /** What has been received of the current frame. */
  datatype Parser =
    | Idle
    | Payload(header: byte, got: seq<byte>)
    | BlockLow
    | BlockHigh(lo: byte)
    | Block(length: nat, got: seq<byte>)
    | Complete(header: byte, payload: seq<byte>)

  function Next(q: Parser, b: byte): Parser {
    match q
    case Idle =>
      if b == BLOCK then BlockLow
      else if IsIgnored(b) then Idle
      else if PayloadLength(b) == 0 then Complete(b, [])
      else Payload(b, [])
    case Payload(h, got) =>
      if |got| + 1 >= PayloadLength(h) then Complete(h, got + [b]) else Payload(h, got + [b])
    case BlockLow => BlockHigh(b)
    case BlockHigh(lo) => Block(BlockLength(lo, b), [])
    case Block(n, got) =>
      if |got| + 1 >= n then Complete(BLOCK, got + [b]) else Block(n, got + [b])
    case Complete(_, _) => Idle
  }

  /** The frames dispatched while the bytes bs arrive one by one. */
  function Dispatched(q: Parser, bs: seq<byte>): seq<Frame>
    decreases |bs|
  {
    if bs == [] then []
    else (if q.Complete? then [Frame(q.header, q.payload, bs[0])] else []) + Dispatched(Next(q, bs[0]), bs[1..])
  }

  /** Bytes between header and payload, and bytes of payload, of a frame that starts with bs. */
  function Prefix(bs: seq<byte>): nat
    requires bs != []
  {
    if bs[0] == BLOCK then 3 else 1
  }

  function Length(bs: seq<byte>): nat
    requires bs != [] && |bs| >= Prefix(bs)
  {
    if bs[0] == BLOCK then BlockLength(bs[1], bs[2]) else PayloadLength(bs[0])
  }

  /** Bytes of a frame that starts with bs, without its terminator. */
  function Whole(bs: seq<byte>): nat
    requires bs != []
  {
    Prefix(bs) + if |bs| < Prefix(bs) then 0 else Length(bs)
  }

  /** The frame bs starts with. */
  function First(bs: seq<byte>): Frame
    requires bs != [] && |bs| > Whole(bs)
  {
    Frame(bs[0], bs[Prefix(bs)..Whole(bs)], bs[Whole(bs)])
  }

  /** The reference definition: cut the stream into header, payload and terminator, frame after frame. */
  function Frames(bs: seq<byte>): seq<Frame>
    decreases |bs|
  {
    if bs == [] then []
    else if IsIgnored(bs[0]) then Frames(bs[1..])
    else if |bs| <= Whole(bs) then [] else [First(bs)] + Frames(bs[Whole(bs) + 1..])
  }

  /** The rest of a payload of n bytes, its terminator, and everything after it. */
  function Finish(h: byte, got: seq<byte>, n: nat, bs: seq<byte>): seq<Frame>
    requires |got| < n
  {
    var missing := n - |got|;
    if |bs| <= missing then [] else [Frame(h, got + bs[..missing], bs[missing])] + Dispatched(Idle, bs[missing + 1..])
  }

  /** The frame whose payload is the n bytes from a given place on, and everything after it. */
  function CutAt(h: byte, n: nat, bs: seq<byte>, from: nat): seq<Frame> {
    var at := from + n;
    if |bs| <= at then [] else [Frame(h, bs[from..at], bs[at])] + Dispatched(Idle, bs[at + 1..])
  }

  lemma {:induction false} PayloadFinishes(h: byte, got: seq<byte>, bs: seq<byte>)
    requires |got| < PayloadLength(h)
    ensures Dispatched(Payload(h, got), bs) == Finish(h, got, PayloadLength(h), bs)
    decreases |bs|
  {
    if bs != [] {
      var got' := got + [bs[0]];
      if |got'| < PayloadLength(h) {
        PayloadFinishes(h, got', bs[1..]);
        FinishStep(h, got, PayloadLength(h), bs);
      } else {
        FinishLast(h, got, bs);
      }
    }
  }

  lemma {:induction false} BlockFinishes(n: nat, got: seq<byte>, bs: seq<byte>)
    requires |got| < n
    ensures Dispatched(Block(n, got), bs) == Finish(BLOCK, got, n, bs)
    decreases |bs|
  {
    if bs != [] {
      var got' := got + [bs[0]];
      if |got'| < n {
        BlockFinishes(n, got', bs[1..]);
        FinishStep(BLOCK, got, n, bs);
      } else {
        FinishLast(BLOCK, got, bs);
      }
    }
  }

  /** Whatever byte follows a complete frame dispatches it, and the parser is idle again. */
  lemma CompleteDispatches(h: byte, payload: seq<byte>, bs: seq<byte>)
    ensures Dispatched(Complete(h, payload), bs) ==
            if bs == [] then [] else [Frame(h, payload, bs[0])] + Dispatched(Idle, bs[1..])
  {
  }

  lemma FinishLast(h: byte, got: seq<byte>, bs: seq<byte>)
    requires bs != []
    ensures Finish(h, got, |got| + 1, bs) == Dispatched(Complete(h, got + [bs[0]]), bs[1..])
  {
    CompleteDispatches(h, got + [bs[0]], bs[1..]);
    if |bs| > 1 {
      assert bs[..1] == [bs[0]];
      assert bs[1..][1..] == bs[2..];
    }
  }

  lemma FinishStep(h: byte, got: seq<byte>, n: nat, bs: seq<byte>)
    requires bs != [] && |got| + 1 < n
    ensures Finish(h, got, n, bs) == Finish(h, got + [bs[0]], n, bs[1..])
  {
    hide Dispatched;
    if |bs| > n - |got| {
      HeadMoves(got, bs, n - |got|);
    }
  }

  lemma HeadMoves(got: seq<byte>, bs: seq<byte>, m: nat)
    requires 1 < m < |bs|
    ensures got + bs[..m] == got + [bs[0]] + bs[1..][..m - 1] && bs[m] == bs[1..][m - 1] && bs[m + 1..] == bs[1..][m..]
  {
    assert bs[..m] == [bs[0]] + bs[1..][..m - 1];
  }

  /**
   The byte-at-a-time parser dispatches exactly the frames of the reference definition: every
   header takes its own payload and no more, the next byte dispatches, and parsing starts afresh.
  */
  lemma {:induction false} DispatchedIsFrames(bs: seq<byte>)
    ensures Dispatched(Idle, bs) == Frames(bs)
    decreases |bs|
  {
    if bs != [] {
      hide *;
      FramesHead(bs);
      DispatchedHead(bs);
      if IsIgnored(bs[0]) {
        DispatchedIsFrames(bs[1..]);
      } else if |bs| > Whole(bs) {
        DispatchedIsFrames(bs[Whole(bs) + 1..]);
      }
    }
  }

  lemma DispatchedHead(bs: seq<byte>)
    requires bs != []
    ensures Dispatched(Idle, bs) ==
            if IsIgnored(bs[0]) then Dispatched(Idle, bs[1..])
            else if |bs| <= Whole(bs) then [] else [First(bs)] + Dispatched(Idle, bs[Whole(bs) + 1..])
  {
    if IsIgnored(bs[0]) {
    } else {
      hide Dispatched, Length, IsIgnored;
      if bs[0] == BLOCK {
        BlockIsFrame(bs);
      } else {
        PayloadIsFrame(bs);
      }
    }
  }

  lemma FramesHead(bs: seq<byte>)
    requires bs != []
    ensures Frames(bs) ==
            if IsIgnored(bs[0]) then Frames(bs[1..])
            else if |bs| <= Whole(bs) then [] else [First(bs)] + Frames(bs[Whole(bs) + 1..])
  {
    hide Whole, First, IsIgnored;
  }

  lemma PayloadIsFrame(bs: seq<byte>)
    requires bs != [] && !IsIgnored(bs[0]) && bs[0] != BLOCK
    ensures Dispatched(Idle, bs) == CutAt(bs[0], Length(bs), bs, 1)
  {
    hide PayloadLength, Dispatched, Finish, CutAt;
    if Length(bs) == 0 {
      NoPayloadIsFrame(bs);
    } else {
      PayloadStarts(bs);
      PayloadFinishes(bs[0], [], bs[1..]);
      FinishFrom(bs[0], Length(bs), bs, 1);
    }
  }

  lemma PayloadStarts(bs: seq<byte>)
    requires bs != [] && !IsIgnored(bs[0]) && bs[0] != BLOCK && PayloadLength(bs[0]) > 0
    ensures Dispatched(Idle, bs) == Dispatched(Payload(bs[0], []), bs[1..])
  {
  }

  lemma NoPayloadIsFrame(bs: seq<byte>)
    requires bs != [] && !IsIgnored(bs[0]) && bs[0] != BLOCK && PayloadLength(bs[0]) == 0
    ensures Dispatched(Idle, bs) == CutAt(bs[0], 0, bs, 1)
  {
    hide PayloadLength;
    assert Dispatched(Idle, bs) == Dispatched(Complete(bs[0], []), bs[1..]);
    if |bs| > 1 {
      assert bs[1..1] == [] && bs[1..][1..] == bs[2..];
      CompleteDispatches(bs[0], [], bs[1..]);
    }
  }

  lemma BlockIsFrame(bs: seq<byte>)
    requires bs != [] && bs[0] == BLOCK
    ensures Dispatched(Idle, bs) == if |bs| < 3 then [] else CutAt(bs[0], Length(bs), bs, 3)
  {
    if |bs| >= 3 {
      BlockStarts(bs);
      BlockFinishes(Length(bs), [], bs[3..]);
      FinishFrom(bs[0], Length(bs), bs, 3);
    } else if |bs| == 2 {
      assert bs[1..][1..] == [];
      assert Dispatched(BlockLow, bs[1..]) == Dispatched(BlockHigh(bs[1]), []);
    }
  }

  lemma BlockStarts(bs: seq<byte>)
    requires |bs| >= 3 && bs[0] == BLOCK
    ensures Dispatched(Idle, bs) == Dispatched(Block(Length(bs), []), bs[3..])
  {
    assert Dispatched(Idle, bs) == Dispatched(BlockLow, bs[1..]);
    assert bs[1..][1..] == bs[2..];
    assert Dispatched(BlockLow, bs[1..]) == Dispatched(BlockHigh(bs[1]), bs[2..]);
    assert bs[2..][1..] == bs[3..];
  }

  lemma FinishFrom(h: byte, n: nat, bs: seq<byte>, from: nat)
    requires n > 0 && from <= |bs|
    ensures Finish(h, [], n, bs[from..]) == CutAt(h, n, bs, from)
  {
    hide Dispatched;
    if |bs| > from + n {
      assert [] + bs[from..][..n] == bs[from..from + n];
      assert bs[from..][n + 1..] == bs[from + n + 1..];
    }
  }

  /** What the receive line sees: a byte, or a serial tick of the main loop. */
  datatype LineEvent = Arrives(b: byte) | Tick

  /** The parser with its timeout: whether a frame has been seen and not finished, and the ticks it has left. */
  datatype Line = Line(parser: Parser, seen: bool, left: byte)

  const GIVEN_UP := Line(Idle, false, 0)

  predicate Expires(l: Line, e: LineEvent) { e.Tick? && l.seen && l.left == 1 }

  function Received(l: Line, e: LineEvent): Line {
    match e
    case Arrives(b) => Line(Next(l.parser, b), !l.parser.Complete?, 20)
    case Tick => if Expires(l, e) then GIVEN_UP else if l.seen then l.(left := Dec(l.left)) else l
  }

  /** The frame that an event dispatches: only a byte does, after a complete frame. */
  function Released(q: Parser, e: LineEvent): seq<Frame> {
    if e.Arrives? && q.Complete? then [Frame(q.header, q.payload, e.b)] else []
  }

  /** The frames dispatched over a stream of bytes and ticks. */
  function StreamFrames(l: Line, es: seq<LineEvent>): seq<Frame>
    decreases |es|
  {
    if es == [] then [] else Released(l.parser, es[0]) + StreamFrames(Received(l, es[0]), es[1..])
  }

  /** The bytes of a stream. */
  function BytesOf(es: seq<LineEvent>): seq<byte> {
    if es == [] then [] else (if es[0].Arrives? then [es[0].b] else []) + BytesOf(es[1..])
  }

  /** How many events pass before a tick gives a frame up. */
  function UntilExpiry(l: Line, es: seq<LineEvent>): (k: nat)
    ensures k <= |es|
    decreases |es|
  {
    if es == [] || Expires(l, es[0]) then 0 else 1 + UntilExpiry(Received(l, es[0]), es[1..])
  }

  /** The reference definition of a stream with timeouts: cut it where a frame is given up, and parse each part on its own. */
  function CutFrames(l: Line, es: seq<LineEvent>): seq<Frame>
    decreases |es|
  {
    var k := UntilExpiry(l, es);
    Frames(BytesOf(es[..k])) + if k < |es| then CutFrames(GIVEN_UP, es[k + 1..]) else []
  }

  /** The frames after a timeout at event k. */
  function AfterExpiry(es: seq<LineEvent>, k: nat): seq<Frame>
    requires k <= |es|
  {
    if k < |es| then StreamFrames(GIVEN_UP, es[k + 1..]) else []
  }

  lemma {:induction false} UpToExpiry(l: Line, es: seq<LineEvent>)
    ensures var k := UntilExpiry(l, es);
            StreamFrames(l, es) == Dispatched(l.parser, BytesOf(es[..k])) + AfterExpiry(es, k)
    decreases |es|
  {
    var k := UntilExpiry(l, es);
    UntilHead(l, es);
    NothingYet(l, es);
    hide *;
    if k > 0 {
      StreamHead(l, es);
      UpToExpiry(Received(l, es[0]), es[1..]);
      Tails(es, k);
      EventHead(l, es[..k]);
    }
  }

  lemma StreamHead(l: Line, es: seq<LineEvent>)
    requires es != []
    ensures StreamFrames(l, es) == Released(l.parser, es[0]) + StreamFrames(Received(l, es[0]), es[1..])
  {
  }

  lemma Tails(es: seq<LineEvent>, k: nat)
    requires 0 < k <= |es|
    ensures es[..k][0] == es[0] && es[..k][1..] == es[1..][..k - 1] && AfterExpiry(es, k) == AfterExpiry(es[1..], k - 1)
  {
    assert k < |es| ==> es[k + 1..] == es[1..][k..];
  }

  lemma UntilHead(l: Line, es: seq<LineEvent>)
    ensures UntilExpiry(l, es)
            == if es == [] || Expires(l, es[0]) then 0 else 1 + UntilExpiry(Received(l, es[0]), es[1..])
  {
  }

  lemma NothingYet(l: Line, es: seq<LineEvent>)
    ensures Dispatched(l.parser, BytesOf(es[..0])) == []
    ensures UntilExpiry(l, es) == 0 ==> StreamFrames(l, es) == AfterExpiry(es, 0)
  {
  }

  lemma EventHead(l: Line, es: seq<LineEvent>)
    requires es != [] && !Expires(l, es[0])
    ensures Dispatched(l.parser, BytesOf(es))
            == Released(l.parser, es[0]) + Dispatched(Received(l, es[0]).parser, BytesOf(es[1..]))
  {
    hide Next;
    if es[0].Arrives? {
      assert BytesOf(es)[1..] == BytesOf(es[1..]);
    } else {
      assert BytesOf(es) == BytesOf(es[1..]);
    }
  }

  /** However bytes and ticks are mixed, what is dispatched are the frames of the parts between timeouts. */
  lemma {:induction false} StreamIsCut(l: Line, es: seq<LineEvent>)
    requires l.parser == Idle
    ensures StreamFrames(l, es) == CutFrames(l, es)
    decreases |es|
  {
    assert GIVEN_UP.parser == Idle;
    hide *;
    var k := UntilExpiry(l, es);
    UpToExpiry(l, es);
    DispatchedIsFrames(BytesOf(es[..k]));
    CutFirst(l, es);
    if k < |es| {
      StreamIsCut(GIVEN_UP, es[k + 1..]);
    }
  }

  lemma CutFirst(l: Line, es: seq<LineEvent>)
    ensures var k := UntilExpiry(l, es);
            && CutFrames(l, es) == Frames(BytesOf(es[..k])) + (if k < |es| then CutFrames(GIVEN_UP, es[k + 1..]) else [])
            && AfterExpiry(es, k) == if k < |es| then StreamFrames(GIVEN_UP, es[k + 1..]) else []
  {
    hide Frames, BytesOf, StreamFrames, UntilExpiry;
  }
}
