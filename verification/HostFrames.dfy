/** Whole exchanges with the host in figures: the bytes that come in, the cells they reach, and the bytes that go out. */
module HostFrames {
  import opened Bytes
  import opened ProgramLayout
  import opened ControllerState
  import opened InterpreterSpec
  import opened ReceiveSpec
  import opened Serial
  import opened Dispatch
  import opened Upload
  import opened InstructionLaws
  import HostMoves

  /** How many operands each header takes. */
  lemma OperandsTaken(h: byte)
    ensures h < 0x40 && h / 16 % 2 == 0 && h % 8 == 7 ==> PayloadLength(h) == 6
    ensures h < 0x40 && !(h / 16 % 2 == 0 && h % 8 == 7) ==> PayloadLength(h) == 1
    ensures 0x40 <= h < 0x70 || 0x80 <= h < 0x87 ==> PayloadLength(h) == 0
    ensures 0x70 <= h < 0x80 ==> PayloadLength(h) == if h % 8 == 7 then 12 else 2
    ensures h == 0x87 || h == 0x88 ==> PayloadLength(h) == 1
  {
  }

  /** A stream that begins with a header, as many operands as it takes, and a terminator: the first frame, and what follows it. */
  lemma FrameInFigures(h: byte, payload: seq<byte>, t: byte, rest: seq<byte>)
    requires h <= 0x88 && h != 0x81
    requires |payload| == if h < 0x40 then (if h / 16 % 2 == 0 && h % 8 == 7 then 6 else 1)
                          else if h < 0x70 then 0 else if h < 0x80 then (if h % 8 == 7 then 12 else 2)
                          else if h < 0x87 then 0 else 1
    ensures Frames([h] + payload + [t] + rest) == [Frame(h, payload, t)] + Frames(rest)
  {
    OperandsTaken(h);
    hide PayloadLength;
    Cut([h] + payload + [t] + rest, [h], payload, t, rest);
  }

  /** And one that begins with a block: its length in two bytes, the low one first, which stands for 256 when it is zero. */
  lemma BlockInFigures(lo: byte, hi: byte, body: seq<byte>, t: byte, rest: seq<byte>)
    requires |body| == (if lo == 0 then 256 else lo as int) + 256 * hi as int
    ensures Frames([0x81, lo, hi] + body + [t] + rest) == [Frame(0x81, body, t)] + Frames(rest)
  {
    Cut([0x81, lo, hi] + body + [t] + rest, [0x81, lo, hi], body, t, rest);
  }

  lemma Cut(bs: seq<byte>, head: seq<byte>, payload: seq<byte>, t: byte, rest: seq<byte>)
    requires bs == head + payload + [t] + rest && head != [] && !IsIgnored(head[0])
    requires Prefix(bs) == |head| && Whole(bs) == |head + payload|
    ensures Frames(bs) == [Frame(head[0], payload, t)] + Frames(rest)
  {
    assert bs[|head|..|head + payload|] == payload;
    assert bs[|head + payload| + 1..] == rest;
  }

  /** Bytes above 0x88 begin nothing. */
  lemma NoiseInFigures(h: byte, rest: seq<byte>)
    requires h > 0x88
    ensures Frames([h] + rest) == Frames(rest)
  {
    assert ([h] + rest)[1..] == rest;
  }

  /** A position command: six operands become the six setpoints, or one operand one axis's. */
  method PositionFrame(s: SerialPort, h: byte, payload: seq<byte>, p1: byte, dph: byte)
    requires s.c.Valid() && AtRest(s) && h < 0x40 && h / 16 % 2 == 0 && |payload| == if h % 8 == 7 then 6 else 1
    modifies s, s.c, s.c.xram, s.c.iram
    ensures AtRest(s) && s.wire == old(s.wire) && s.c.xram[..] == old(s.c.xram[..])
    ensures forall i :: 0x50 <= i < 0x56 ==>
              s.c.iram[i] == if h % 8 == 7 then payload[i - 0x50] else if i == 0x50 + h % 8 then payload[0] else old(s.c.iram[i])
    ensures forall i :: 0x40 <= i < 0x50 || 0x58 <= i < 0x60 || 0x66 <= i < 0x80 ==> s.c.iram[i] == old(s.c.iram[i])
    ensures s.c.inPosition == if h % 8 == 7 then 0 else old(s.c.inPosition)
    ensures s.c.needMove == old(s.c.needMove) && s.c.renewed == old(s.c.renewed)
  {
    OperandsTaken(h);
    SilentPosition(h, s.c.iram[..], s.c.xram[..], p1, s.c.ramOk, s.c.loaded, s.c.running, s.c.page);
    PositionCells(s.c.iram[..], payload, h);
    hide PayloadLength, ReplyTo, ReplyBytes, Filled, HostMoves.Placed, OperatorMasks, OperatorCells;
    ghost var k := s.c.Control();
    var effect, got := Exchange(s, h, payload, ETX, p1, dph);
    PositionEffect(h, got, s.c.iram[..], k, s.c.Control());
  }

  lemma PositionEffect(h: byte, got: seq<byte>, iram': seq<byte>, k: Control, k': Control)
    requires h < 0x40 && !Bit4(h) && |got| == 0x80 && OperatorCells(h, got, iram') && OperatorMasks(h, got[0x60], k, k')
    ensures iram' == HostMoves.Placed(got, SETPOINT, h)
    ensures k'.needMove == k.needMove && k'.renewed == k.renewed && k'.inPosition == if h % 8 == 7 then 0 else k.inPosition
  {
    hide HostMoves.Placed;
  }

  lemma SilentPosition(h: byte, iram: seq<byte>, mem: Memory, p1: byte, ramOk: bool, loaded: bool, running: bool, p: SramPage)
    requires |iram| == 0x80 && h < 0x40
    ensures ReplyBytes(ReplyTo(h, ETX, iram, mem, p1, ramOk, loaded, running, false), h, mem, p) == []
  {
  }

  lemma PositionCells(iram: seq<byte>, payload: seq<byte>, h: byte)
    requires |iram| == 0x80 && h < 0x40 && h / 16 % 2 == 0 && |payload| == if h % 8 == 7 then 6 else 1
    ensures !Bit4(h)
    ensures var r := HostMoves.Placed(Filled(iram, payload), SETPOINT, h);
            && (forall i :: 0x50 <= i < 0x56 ==>
                  r[i] == if h % 8 == 7 then payload[i - 0x50] else if i == 0x50 + h % 8 then payload[0] else iram[i])
            && (forall i :: 0x40 <= i < 0x50 || 0x58 <= i < 0x60 || 0x66 <= i < 0x80 ==> r[i] == iram[i])
  {
  }

  /** A timed command: six targets and six time factors, or one axis's two; and which axes it puts under way. */
  method TimedFrame(s: SerialPort, h: byte, payload: seq<byte>, p1: byte, dph: byte)
    requires s.c.Valid() && AtRest(s) && 0x70 <= h < 0x80 && |payload| == if h % 8 == 7 then 12 else 2
    modifies s, s.c, s.c.xram, s.c.iram
    ensures AtRest(s) && s.wire == old(s.wire) && s.c.xram[..] == old(s.c.xram[..])
    ensures forall i :: 0x40 <= i < 0x46 ==>
              s.c.iram[i] == if h % 8 == 7 then payload[i - 0x40] else if i == 0x40 + h % 8 then payload[0] else old(s.c.iram[i])
    ensures forall i :: 0x70 <= i < 0x76 ==>
              s.c.iram[i] == if h % 8 == 7 then payload[i - 0x70 + 6]
                             else if i == 0x70 + h % 8 then payload[1] else old(s.c.iram[i])
    ensures forall i :: 0x50 <= i < 0x60 || 0x78 <= i < 0x80 ==> s.c.iram[i] == old(s.c.iram[i])
    ensures s.c.needMove == old(s.c.needMove) | HostMoves.HostMask(h) && s.c.renewed == old(s.c.renewed) | HostMoves.HostMask(h)
  {
    OperandsTaken(h);
    SilentMove(h, s.c.iram[..], s.c.xram[..], p1, s.c.ramOk, s.c.loaded, s.c.running, s.c.page);
    TimedCells(s.c.iram[..], payload, h);
    hide PayloadLength, ReplyTo, ReplyBytes, Filled, HostMoves.Timed, HostMoves.HostMask, OperatorMasks, OperatorCells;
    ghost var k := s.c.Control();
    var effect, got := Exchange(s, h, payload, ETX, p1, dph);
    MoveEffect(h, got, s.c.iram[..], k, s.c.Control());
  }

  lemma MoveEffect(h: byte, got: seq<byte>, iram': seq<byte>, k: Control, k': Control)
    requires 0x70 <= h < 0x80 && |got| == 0x80 && OperatorCells(h, got, iram') && OperatorMasks(h, got[0x60], k, k')
    ensures iram' == HostMoves.Timed(got, h)
    ensures k'.needMove == k.needMove | HostMoves.HostMask(h) && k'.renewed == k.renewed | HostMoves.HostMask(h)
  {
    hide HostMoves.Timed, HostMoves.HostMask;
  }

  lemma SilentMove(h: byte, iram: seq<byte>, mem: Memory, p1: byte, ramOk: bool, loaded: bool, running: bool, p: SramPage)
    requires |iram| == 0x80 && 0x70 <= h < 0x80
    ensures ReplyBytes(ReplyTo(h, ETX, iram, mem, p1, ramOk, loaded, running, false), h, mem, p) == []
  {
  }

  lemma TimedCells(iram: seq<byte>, payload: seq<byte>, h: byte)
    requires |iram| == 0x80 && 0x70 <= h < 0x80 && |payload| == if h % 8 == 7 then 12 else 2
    ensures var r := HostMoves.Timed(Filled(iram, payload), h);
            && (forall i :: 0x40 <= i < 0x46 ==>
                  r[i] == if h % 8 == 7 then payload[i - 0x40] else if i == 0x40 + h % 8 then payload[0] else iram[i])
            && (forall i :: 0x70 <= i < 0x76 ==>
                  r[i] == if h % 8 == 7 then payload[i - 0x70 + 6] else if i == 0x70 + h % 8 then payload[1] else iram[i])
            && (forall i :: 0x50 <= i < 0x60 || 0x78 <= i < 0x80 ==> r[i] == iram[i])
  {
  }

  /** The mask of a host command: the bit of the axis its low bits name, or all six. */
  lemma HostMaskInFigures(h: byte)
    ensures HostMoves.HostMask(h) ==
            if h % 8 == 7 then 0x3F else if h % 8 == 0 then 0x01 else if h % 8 == 1 then 0x02 else if h % 8 == 2 then 0x04
            else if h % 8 == 3 then 0x08 else if h % 8 == 4 then 0x10 else if h % 8 == 5 then 0x20 else 0xC2
  {
  }

  /** A position query is answered with the measured position of one axis, or of all six in order. */
  method PositionQuery(s: SerialPort, h: byte, p1: byte, dph: byte)
    requires s.c.Valid() && AtRest(s) && 0x40 <= h < 0x50
    modifies s, s.c, s.c.xram, s.c.iram
    ensures AtRest(s) && s.c.xram[..] == old(s.c.xram[..])
    ensures var iram := old(s.c.iram[..]);
            s.wire == old(s.wire) + ([h] + (if h % 8 == 7 then iram[0x58..0x5E] else [iram[0x58 + h % 8]]) + [0x03])
    ensures forall i :: 0 <= i < 0x60 ==> s.c.iram[i] == old(s.c.iram[i])
  {
    OperandsTaken(h);
    PositionReply(h, s.c.iram[..], s.c.xram[..], p1, s.c.ramOk, s.c.loaded, s.c.running, s.c.page);
    FilledNothing(s.c.iram[..]);
    hide PayloadLength, ReplyTo, ReplyBytes, Filled, OperatorMasks, OperatorCells;
    var effect, got := Exchange(s, h, [], ETX, p1, dph);
    QueryEffect(h, got, s.c.iram[..]);
  }

  lemma QueryEffect(h: byte, got: seq<byte>, iram': seq<byte>)
    requires 0x40 <= h < 0x60 && |got| == 0x80 && OperatorCells(h, got, iram')
    ensures |iram'| == 0x80 && forall i :: 0 <= i < 0x60 ==> iram'[i] == got[i]
  {
  }

  lemma PositionReply(h: byte, iram: seq<byte>, mem: Memory, p1: byte, ramOk: bool, loaded: bool, running: bool, p: SramPage)
    requires |iram| == 0x80 && 0x40 <= h < 0x50
    ensures ReplyBytes(ReplyTo(h, ETX, iram, mem, p1, ramOk, loaded, running, false), h, mem, p)
              == [h] + (if h % 8 == 7 then iram[0x58..0x5E] else [iram[0x58 + h % 8]]) + [0x03]
  {
    assert !Bit4(h);
  }

  /** A query of the inputs is answered with the two converter channels and the input port, as the low three bits select. */
  method InputQuery(s: SerialPort, h: byte, p1: byte, dph: byte)
    requires s.c.Valid() && AtRest(s) && 0x50 <= h < 0x60
    modifies s, s.c, s.c.xram, s.c.iram
    ensures AtRest(s) && s.c.xram[..] == old(s.c.xram[..])
    ensures var iram := old(s.c.iram[..]);
            s.wire == old(s.wire) + ([h] + (if h % 2 == 1 then [iram[0x5E]] else [])
                                     + (if h / 2 % 2 == 1 then [iram[0x5F]] else [])
                                     + (if h / 4 % 2 == 1 then [p1] else []) + [0x03])
    ensures forall i :: 0 <= i < 0x60 ==> s.c.iram[i] == old(s.c.iram[i])
  {
    OperandsTaken(h);
    InputReply(h, s.c.iram[..], s.c.xram[..], p1, s.c.ramOk, s.c.loaded, s.c.running, s.c.page);
    FilledNothing(s.c.iram[..]);
    hide PayloadLength, ReplyTo, ReplyBytes, Filled, OperatorMasks, OperatorCells;
    var effect, got := Exchange(s, h, [], ETX, p1, dph);
    QueryEffect(h, got, s.c.iram[..]);
  }

  lemma InputReply(h: byte, iram: seq<byte>, mem: Memory, p1: byte, ramOk: bool, loaded: bool, running: bool, p: SramPage)
    requires |iram| == 0x80 && 0x50 <= h < 0x60
    ensures ReplyBytes(ReplyTo(h, ETX, iram, mem, p1, ramOk, loaded, running, false), h, mem, p)
              == [h] + (if h % 2 == 1 then [iram[0x5E]] else []) + (if h / 2 % 2 == 1 then [iram[0x5F]] else [])
                 + (if h / 4 % 2 == 1 then [p1] else []) + [0x03]
  {
    assert Bit4(h);
  }

  /** What the host hears of every other frame: which frames stay unanswered, and the codes of refusals. */
  lemma RepliesInFigures(h: byte, t: byte, iram: seq<byte>, mem: Memory, p1: byte, ramOk: bool, loaded: bool, running: bool,
                         accepted: bool, p: SramPage)
    requires |iram| == 0x80
    ensures var reply := ReplyBytes(ReplyTo(h, t, iram, mem, p1, ramOk, loaded, running, accepted), h, mem, p);
            && (t != 0x03 ==> reply == [0xF3])
            && (t == 0x03 && (h < 0x40 || 0x70 <= h < 0x80) ==> reply == [])
            && (t == 0x03 && 0x60 <= h < 0x70 ==>
                  reply == if h % 4 == 3 then [h, mem[0x20], mem[0x21], mem[0x22], 0x03] else [])
            && (t == 0x03 && h == 0x80 && !loaded ==> reply == [0xF4])
            && (t == 0x03 && h == 0x81 ==> reply == if !ramOk then [0xF4] else if loaded && accepted then [h, 0x03] else [0xF5])
            && (t == 0x03 && (h == 0x82 || h == 0x87) ==> reply == if loaded && accepted then [h, 0x03] else [0xF6])
            && (t == 0x03 && (h == 0x84 || h == 0x85) ==> reply == if loaded && running then [h, 0x03] else [0xF6])
            && (t == 0x03 && (h == 0x83 || h == 0x86 || h == 0x88) ==> reply == if loaded then [h, 0x03] else [0xF6])
  {
    if t == 0x03 && 0x60 <= h < 0x70 {
      SerialReply(h, mem);
    }
    hide Bit0, Bit1, Values, ReadBackBytes;
  }

  lemma SerialReply(h: byte, mem: Memory)
    ensures mem[0x20..0x23] == [mem[0x20], mem[0x21], mem[0x22]]
    ensures Bit1(h) && Bit0(h) <==> h % 4 == 3
  {
  }

  /** Hold: the six setpoints become the measured positions. */
  method HoldFrame(s: SerialPort, h: byte, p1: byte, dph: byte)
    requires s.c.Valid() && AtRest(s) && 0x60 <= h < 0x70 && h % 4 == 2
    modifies s, s.c, s.c.xram, s.c.iram
    ensures AtRest(s) && s.wire == old(s.wire)
    ensures forall i :: 0x50 <= i < 0x56 ==> s.c.iram[i] == old(s.c.iram[i + 8])
    ensures forall i :: 0 <= i < 0x50 || 0x56 <= i < 0x80 ==> s.c.iram[i] == old(s.c.iram[i])
  {
    OperandsTaken(h);
    SilentHold(h, s.c.iram[..], s.c.xram[..], p1, s.c.ramOk, s.c.loaded, s.c.running, s.c.page);
    FilledNothing(s.c.iram[..]);
    hide PayloadLength, ReplyTo, ReplyBytes, Filled, OperatorMasks, OperatorCells;
    var effect, got := Exchange(s, h, [], ETX, p1, dph);
    HoldEffect(h, got, s.c.iram[..]);
  }

  lemma HoldEffect(h: byte, got: seq<byte>, iram': seq<byte>)
    requires 0x60 <= h < 0x70 && h % 4 == 2 && |got| == 0x80 && OperatorCells(h, got, iram')
    ensures |iram'| == 0x80 && forall i :: 0 <= i < 0x80 ==> iram'[i] == if 0x50 <= i < 0x56 then got[i + 8] else got[i]
  {
    SilentBits(h);
    hide Bit0, Bit1;
  }

  lemma SilentBits(h: byte)
    ensures h % 4 == 2 ==> Bit1(h) && !Bit0(h)
  {
  }

  lemma SilentHold(h: byte, iram: seq<byte>, mem: Memory, p1: byte, ramOk: bool, loaded: bool, running: bool, p: SramPage)
    requires |iram| == 0x80 && 0x60 <= h < 0x70 && h % 4 == 2
    ensures Bit1(h) && !Bit0(h)
    ensures ReplyBytes(ReplyTo(h, ETX, iram, mem, p1, ramOk, loaded, running, false), h, mem, p) == []
  {
  }

  /** The host's output commands, on the bit of weight w: set to the operand, set by it, cleared by it, or turned over by it. */
  method OutputFrame(s: SerialPort, h: byte, x: byte, p1: byte, dph: byte, ghost w: nat)
    requires s.c.Valid() && AtRest(s) && h < 0x40 && h / 16 % 2 == 1
    requires w == 1 || w == 2 || w == 4 || w == 8 || w == 16 || w == 32 || w == 64 || w == 128
    modifies s, s.c, s.c.xram, s.c.iram
    ensures AtRest(s) && s.wire == old(s.wire)
    ensures var was, bit, now := old(s.c.outputs) / w % 2 == 1, x / w % 2 == 1, s.c.outputs / w % 2 == 1;
            && (h % 4 == 0 ==> now == bit) && (h % 4 == 1 ==> now == (was || bit))
            && (h % 4 == 2 ==> now == (was && bit)) && (h % 4 == 3 ==> now == (was != bit))
  {
    OperandsTaken(h);
    SilentPosition(h, s.c.iram[..], s.c.xram[..], p1, s.c.ramOk, s.c.loaded, s.c.running, s.c.page);
    OutputBit(h % 4, s.c.outputs, x, w);
    FirstOperand(s.c.iram[..], x);
    hide PayloadLength, ReplyTo, ReplyBytes, Filled, OperatorMasks, OperatorCells, NewOutputs;
    ghost var k := s.c.Control();
    var effect, got := Exchange(s, h, [x], ETX, p1, dph);
    OutputEffect(h, x, k, s.c.Control());
  }

  lemma FirstOperand(iram: seq<byte>, x: byte)
    requires |iram| == 0x80
    ensures Filled(iram, [x])[0x60] == x
  {
  }

  lemma OutputEffect(h: byte, x: byte, k: Control, k': Control)
    requires h < 0x40 && h / 16 % 2 == 1 && OperatorMasks(h, x, k, k')
    ensures k'.outputs == NewOutputs(h % 4, k.outputs, x)
  {
    hide NewOutputs;
  }

  /** Servo on and off. */
  method ServoFrame(s: SerialPort, h: byte, p1: byte, dph: byte) returns (effect: Effect)
    requires s.c.Valid() && AtRest(s) && 0x60 <= h < 0x70 && h % 4 < 2
    modifies s, s.c, s.c.xram, s.c.iram
    ensures AtRest(s) && s.wire == old(s.wire) && effect == Servo(h % 2 == 1)
  {
    OperandsTaken(h);
    SilentServo(h, s.c.iram[..], s.c.xram[..], p1, s.c.ramOk, s.c.loaded, s.c.running, s.c.page);
    hide PayloadLength, ReplyTo, ReplyBytes, Filled, OperatorMasks, OperatorCells;
    ghost var got;
    effect, got := Exchange(s, h, [], ETX, p1, dph);
  }

  lemma SilentServo(h: byte, iram: seq<byte>, mem: Memory, p1: byte, ramOk: bool, loaded: bool, running: bool, p: SramPage)
    requires |iram| == 0x80 && 0x60 <= h < 0x70 && h % 4 < 2
    ensures !Bit1(h)
    ensures ReplyBytes(ReplyTo(h, ETX, iram, mem, p1, ramOk, loaded, running, false), h, mem, p) == []
  {
  }

  /** What counts as a program on the line, byte by byte. */
  lemma ValidInFigures(body: seq<byte>)
    requires |body| >= 1
    ensures ValidBody(body) <==>
            && |body| > 1 && |body| % 8 == 1 && body[|body| - 1] == 0x83
            && forall i :: 0 <= i < |body| - 1 && i % 8 == 0 ==> body[i] < 0x80
    ensures |ZeroedBody(body)| == |body|
    ensures forall i :: 0 <= i < |body| ==>
              ZeroedBody(body)[i] == if 8 <= i < |body| - 1 && i % 8 == 3 && body[i - 3] == 0x36 then 0 else body[i]
  {
  }

  lemma LabelsInFigures(body: seq<byte>)
    requires forall i :: 8 <= i < |body| - 8 && i % 8 == 0 && body[i] == 0x1F ==> body[i + 1] <= 118
    ensures ProperLabels(body)
  {
  }

  /** An upload is answered 81 03 or F5, as the bytes sent are a program or not. */
  method UploadAnswer(s: SerialPort, body: seq<byte>)
    requires s.c.Valid() && AtRest(s) && s.c.ramOk && 1 <= |body| <= 0x1F00
    requires forall i :: 8 <= i < |body| - 8 && i % 8 == 0 && body[i] == 0x1F ==> body[i + 1] <= 118
    modifies s, s.c, s.c.xram, s.c.iram
    ensures AtRest(s)
    ensures s.wire == old(s.wire)
                      + if && |body| > 1 && |body| % 8 == 1 && body[|body| - 1] == 0x83
                           && forall i :: 0 <= i < |body| - 1 && i % 8 == 0 ==> body[i] < 0x80
                        then [0x81, 0x03] else [0xF5]
  {
    ValidInFigures(body);
    LabelsInFigures(body);
    hide ValidBody, ProperLabels, ZeroedBody, Holds, IsEmptyProgram, AtRest;
    UploadProgram(s, body);
  }

  /** And read back byte for byte, loop counters zeroed, behind its size in two bytes and before ETX. */
  method RoundTrip(s: SerialPort, body: seq<byte>)
    requires s.c.Valid() && AtRest(s) && s.c.ramOk && 1 < |body| <= 0x1F00 && |body| % 8 == 1 && body[|body| - 1] == 0x83
    requires forall i :: 0 <= i < |body| - 1 && i % 8 == 0 ==> body[i] < 0x80
    requires forall i :: 8 <= i < |body| - 8 && i % 8 == 0 && body[i] == 0x1F ==> body[i + 1] <= 118
    modifies s, s.c, s.c.xram, s.c.iram
    ensures old(s.wire) <= s.wire && |s.wire| == |old(s.wire)| + 6 + |body|
    ensures var sent := s.wire[|old(s.wire)|..];
            && sent[0] == 0x81 && sent[1] == 0x03 && sent[3] == (|body| - 1) % 256 && sent[4] == (|body| - 1) / 256
            && sent[5 + |body|] == 0x03
            && forall i :: 0 <= i < |body| ==>
                 sent[5..][i] == if 8 <= i < |body| - 1 && i % 8 == 3 && body[i - 3] == 0x36 then 0 else body[i]
  {
    ValidInFigures(body);
    LabelsInFigures(body);
    hide ValidBody, ProperLabels, ZeroedBody, AtRest;
    ghost var wire, z := s.wire, ZeroedBody(body);
    UploadThenReadBack(s, body);
    ghost var head := [BLOCK, ETX, s.c.xram[s.c.page as int * 256 + 0xFD], Lo(|body| - 1), Hi(|body| - 1)];
    assert s.wire == wire + (head + z + [ETX]);
    SentParts(wire, head, z, s.wire);
  }

  lemma SentParts(wire: seq<byte>, head: seq<byte>, z: seq<byte>, after: seq<byte>)
    requires |head| == 5 && after == wire + (head + z + [ETX])
    ensures wire <= after && |after| == |wire| + 6 + |z|
    ensures var sent := after[|wire|..]; sent[..5] == head && sent[5 + |z|] == 0x03 && sent[5..][..|z|] == z
  {
  }
}
