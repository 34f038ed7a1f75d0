/** A program sent over the serial line and read back again. */
module Upload {
  import opened Bytes
  import opened ProgramLayout
  import opened ControllerState
  import opened ReceiveSpec
  import opened Serial
  import opened Transmit
  import opened Dispatch

  const READ_BACK: byte := 0x80

  /** The two length bytes the host sends for a block of n bytes. */
  lemma LengthBytes(n: nat)
    requires 1 <= n <= 0x1_0000
    ensures (n - 1) / 256 < 256 && BlockLength(n % 256, (n - 1) / 256) == n
  {
  }

  /** A block with its length bytes; afterwards it is in the body and its size in the header. */
  method SendBlock(s: SerialPort, body: seq<byte>)
    requires s.c.Valid() && Between(s) && 1 <= |body| <= 0x1F00
    modifies s`inFrame, s`complete, s`seen, s`second, s`counting, s`r0, s`r2, s`r6, s`ptrLo, s`ptrHi, s`timeout,
             s.c`loaded, s.c.xram, s.c.iram
    ensures s.Represents(Complete(BLOCK, body))
    ensures s.c.iram[..] == old(s.c.iram[..])
  {
    var n := |body|;
    hide Cell, BlockLength;
    LengthBytes(n);
    var d := s.ReceiveByte(BLOCK, Idle);
    d := s.ReceiveByte(n % 256, BlockLow);
    d := s.ReceiveByte((n - 1) / 256, BlockHigh(n % 256));
    ghost var q := Block(n, []);
    assert body[..0] == [];
    var i := 0;
    while i < n
      invariant 0 <= i <= n && s.Represents(q)
      invariant q == if i < n then Block(n, body[..i]) else Complete(BLOCK, body[..n])
      invariant s.c.iram[..] == old(s.c.iram[..])
    {
      d := s.ReceiveByte(body[i], q);
      assert body[..i + 1] == body[..i] + [body[i]];
      q := Next(q, body[i]);
      i := i + 1;
    }
    assert body[..n] == body;
  }

  lemma {:induction false} StreamIsSlice(mem: Memory, a: word, n: nat)
    requires a + n <= 0x1_0000
    ensures Stream(mem, a, n) == mem[a..a + n]
    decreases n
  {
    if n > 0 {
      if a + 1 < 0x1_0000 {
        StreamIsSlice(mem, a + 1, n - 1);
      }
      assert mem[a..a + n] == [mem[a]] + mem[a + 1..a + n];
    }
  }

  /** The command announces as many bytes as header and body have exactly when adding four does not carry. */
  lemma ReadBackLengthIff(mem: Memory, p: SramPage)
    ensures StreamLength((mem[p * 256 + 0xFE] as int + 4) % 256, Inc(mem[p * 256 + 0xFF])) == Size(mem, p) + 4
            <==> mem[p * 256 + 0xFE] <= 252
  {
    LengthCarries(mem[p * 256 + 0xFE], mem[p * 256 + 0xFF]);
    hide StreamLength;
  }

  lemma LengthCarries(lo: byte, hi: byte)
    ensures StreamLength((lo as int + 4) % 256, Inc(hi)) == Pair(hi, lo) + 4 <==> lo <= 252
  {
  }

  /** Of an intact program the readback is its header bytes and the whole body up to and including END. */
  lemma ReadBackIsProgram(mem: Memory, p: SramPage)
    requires Fits(mem, p) && Size(mem, p) % 8 == 0
    ensures ReadBackBytes(mem, p) ==
            [mem[p * 256 + 0xFD], Lo(Size(mem, p)), Hi(Size(mem, p))] + mem[Base(p)..Base(p) + Size(mem, p) + 1]
  {
    var a, n := p * 256 + 0xFD, Size(mem, p) + 4;
    assert ReadBackBytes(mem, p) == Stream(mem, a, n) by {
      AlignedLow(mem, p);
      ReadBackLengthIff(mem, p);
    }
    hide *;
    assert a + 3 == Base(p) && a + n == Base(p) + Size(mem, p) + 1 by { ReadBackEnds(mem, p); }
    StreamIsSlice(mem, a, n);
    SplitSlice(mem, a, n);
    assert Lo(Size(mem, p)) == mem[a + 1] && Hi(Size(mem, p)) == mem[a + 2] by { ReadBackEnds(mem, p); }
  }

  lemma ReadBackEnds(mem: Memory, p: SramPage)
    requires Fits(mem, p)
    ensures p * 256 + 0xFD + 3 == Base(p) && Base(p) + Size(mem, p) < 0xFF00
    ensures Lo(Size(mem, p)) == mem[p * 256 + 0xFE] && Hi(Size(mem, p)) == mem[p * 256 + 0xFF]
  {
    PairSplits(mem[p * 256 + 0xFF], mem[p * 256 + 0xFE]);
  }

  lemma AlignedLow(mem: Memory, p: SramPage)
    requires Size(mem, p) % 8 == 0
    ensures mem[p * 256 + 0xFE] <= 248
  {
  }

  lemma SplitSlice(mem: Memory, a: word, n: nat)
    requires 3 <= n && a + n <= 0x1_0000
    ensures mem[a..a + n] == [mem[a], mem[a + 1], mem[a + 2]] + mem[a + 3..a + n]
  {
  }

  /** The body of a prepared program: its bytes, with the counters of LOOP slots zeroed. */
  function ZeroedBody(body: seq<byte>): seq<byte> {
    seq(|body|, (i: nat) requires i < |body| =>
      if 8 <= i < |body| - 1 && i % 8 == 3 && body[i - 3] == LOOP then 0 else body[i])
  }

  /** The marks of an uploaded program name proper labels. */
  predicate ProperLabels(body: seq<byte>) {
    forall i :: 8 <= i < |body| - 8 && i % 8 == 0 && body[i] == MARK ==> body[i + 1] <= MAX_LABEL
  }

  predicate ValidBody(body: seq<byte>) {
    && |body| > 1 && |body| % 8 == 1 && body[|body| - 1] == END
    && forall i :: 0 <= i < |body| - 1 && i % 8 == 0 ==> body[i] < 0x80
  }

  /** body is what the body area of mem holds, and its size is in the header. */
  predicate Holds(mem: Memory, p: SramPage, body: seq<byte>) {
    1 <= |body| <= 0x1F00 && Size(mem, p) == |body| - 1 && mem[Base(p)..Base(p) + |body|] == body
  }

  lemma StoredHolds(mem: Memory, p: SramPage, body: seq<byte>)
    requires 1 <= |body| <= 0x1F00 && Stored(mem, p, |body|, body)
    ensures Holds(mem, p, body) && Fits(mem, p)
  {
    forall i | 0 <= i < |body| ensures mem[Base(p) + i] == body[i] {
      NextBodyCell(p, i);
    }
  }

  /** What the validator says about an uploaded body, in terms of the bytes sent. */
  lemma AcceptsBody(mem: Memory, p: SramPage, body: seq<byte>)
    requires Fits(mem, p) && Holds(mem, p, body)
    ensures ProperLabels(body) ==> LabelsInRange(mem, p)
    ensures Accepts(mem, p) <==> ValidBody(body)
  {
    hide ProperLabels, LabelsInRange;
    if ProperLabels(body) {
      AcceptsLabels(mem, p, body);
    }
    if Size(mem, p) % 8 == 0 {
      AcceptsOpcodes(mem, p, body);
    }
    HeldByte(mem, p, body, |body| - 1);
  }

  lemma AcceptsLabels(mem: Memory, p: SramPage, body: seq<byte>)
    requires Fits(mem, p) && Holds(mem, p, body) && ProperLabels(body)
    ensures LabelsInRange(mem, p)
  {
    forall k | 0 <= k < Slots(mem, p) {
      HeldSlot(mem, p, body, k);
    }
  }

  lemma AcceptsOpcodes(mem: Memory, p: SramPage, body: seq<byte>)
    requires Fits(mem, p) && Holds(mem, p, body) && Size(mem, p) % 8 == 0
    ensures (forall k :: 0 <= k < Slots(mem, p) ==> Op(mem, p, k) < 0x80)
            <==> (forall i :: 0 <= i < |body| - 1 && i % 8 == 0 ==> body[i] < 0x80)
  {
    forall k | 0 <= k < Slots(mem, p) ensures 8 * k + 8 < |body| && Op(mem, p, k) == body[8 * k] {
      HeldSlot(mem, p, body, k);
    }
    hide Op;
    if forall k :: 0 <= k < Slots(mem, p) ==> Op(mem, p, k) < 0x80 {
      forall i | 0 <= i < |body| - 1 && i % 8 == 0 ensures body[i] < 0x80 {
        assert Op(mem, p, i / 8) == body[8 * (i / 8)];
      }
    }
  }

  lemma HeldByte(mem: Memory, p: SramPage, body: seq<byte>, i: nat)
    requires Holds(mem, p, body) && i < |body|
    ensures mem[Base(p) + i] == body[i]
  {
    assert mem[Base(p)..Base(p) + |body|][i] == body[i];
  }

  lemma HeldSlot(mem: Memory, p: SramPage, body: seq<byte>, k: nat)
    requires Fits(mem, p) && Holds(mem, p, body) && k < Slots(mem, p)
    ensures 8 * k + 8 < |body| && Op(mem, p, k) == body[8 * k] && mem[Slot(p, k) + 1] == body[8 * k + 1]
  {
    HeldByte(mem, p, body, 8 * k);
    HeldByte(mem, p, body, 8 * k + 1);
  }

  lemma PreparedHolds(mem: Memory, p: SramPage, body: seq<byte>)
    requires Fits(mem, p) && Holds(mem, p, body) && Accepts(mem, p)
    ensures Holds(Prepared(mem, p), p, ZeroedBody(body)) && Fits(Prepared(mem, p), p)
  {
    hide Prepared;
    var mem' := Prepared(mem, p);
    PreparedBody(mem, p, p * 256 + 0xFE);
    PreparedBody(mem, p, p * 256 + 0xFF);
    assert forall i :: 0 <= i < |body| ==> mem[Base(p) + i] == body[i];
    forall i | 0 <= i < |body| ensures mem'[Base(p) + i] == ZeroedBody(body)[i] {
      PreparedBody(mem, p, Base(p) + i);
    }
  }

  /** The receiver is between frames. */
  predicate Between(s: SerialPort)
    reads s`inFrame, s`complete, s`second
  {
    !s.inFrame && !s.complete && !s.second
  }

  /** The transmitter is idle, with nothing left to send. */
  predicate Silent(s: SerialPort)
    reads s`token, s`busy, s`ti, s`sendBuffer, s`lastSent, s`sendStream, s`sendKey, s`sendEtx, s`sendStatus
  {
    && LineOk(s) && s.token
    && !s.sendBuffer && !s.lastSent && !s.sendStream && !s.sendKey && !s.sendEtx && !s.sendStatus
  }

  /** A serial port at rest: nothing received, nothing to send, nothing on the line. */
  predicate AtRest(s: SerialPort)
    reads s
  {
    Between(s) && Silent(s)
  }

  lemma LineIdle(s: SerialPort)
    ensures Silent(s) ==> LineOk(s) && s.token
  {
  }

  lemma BlockIsStored(s: SerialPort, body: seq<byte>)
    requires s.c.Valid() && s.Represents(Complete(BLOCK, body))
    ensures body != [] && Stored(s.c.xram[..], s.c.page, |body|, body) && (s.c.loaded <==> body[|body| - 1] == END)
  {
  }

  lemma SilentIsQuiet(s: SerialPort)
    ensures Silent(s) ==> Quiet(QueueOf(s)) && Sound(QueueOf(s))
  {
  }

  /** A reply armed by an idle receiver goes out, and everything is at rest again. */
  method Finish(s: SerialPort)
    requires s.c.Valid() && Sound(QueueOf(s)) && LineOk(s) && s.token && Between(s)
    modifies s`token, s`busy, s`wire, s`sendBuffer, s`lastSent, s`sendStream, s`sendKey, s`sendEtx, s`sendStatus,
             s`r1, s`r3, s`ptrLo, s`ptrHi, s`ti
    ensures AtRest(s) && s.wire == old(s.wire) + old(PendingOf(s))
  {
    hide Pending, Sound;
    Drain(s);
  }

  /** The frame is complete: its terminator leaves the receiver idle. */
  method Terminate(s: SerialPort, t: byte, h: byte, ghost payload: seq<byte>)
    requires s.c.Valid() && s.Represents(Complete(h, payload))
    modifies s`inFrame, s`complete, s`seen, s`second, s`counting, s`r0, s`r2, s`r6, s`ptrLo, s`ptrHi, s`timeout,
             s.c`loaded, s.c.xram, s.c.iram
    ensures Between(s)
    ensures s.c.xram[..] == old(s.c.xram[..]) && s.c.iram[..] == old(s.c.iram[..]) && s.c.loaded == old(s.c.loaded)
  {
    var d := s.ReceiveByte(t, Complete(h, payload));
  }

  /** Internal RAM after a payload has come in: it fills the receive buffers from the front, and nothing else changes. */
  function Filled(iram: seq<byte>, payload: seq<byte>): (got: seq<byte>)
    requires |iram| == 0x80 && |payload| <= 12
    ensures |got| == 0x80
  {
    seq(0x80, (i: nat) requires i < 0x80 =>
      if 0x60 <= i < 0x66 && i - 0x60 < |payload| then payload[i - 0x60]
      else if 0x70 <= i < 0x76 && i - 0x70 + 6 < |payload| then payload[i - 0x70 + 6]
      else iram[i])
  }

  lemma FilledSnoc(iram: seq<byte>, payload: seq<byte>, b: byte)
    requires |iram| == 0x80 && |payload| < 12
    ensures Filled(iram, payload + [b]) == Filled(iram, payload)[Cell(|payload|) := b]
  {
  }

  lemma FilledNothing(iram: seq<byte>)
    requires |iram| == 0x80
    ensures Filled(iram, []) == iram
  {
  }

  /** Header and operands of a frame that is no block. */
  method SendFrame(s: SerialPort, h: byte, payload: seq<byte>)
    requires s.c.Valid() && Between(s) && !IsIgnored(h) && h != BLOCK && |payload| == PayloadLength(h)
    modifies s`inFrame, s`complete, s`seen, s`second, s`counting, s`r0, s`r2, s`r6, s`ptrLo, s`ptrHi, s`timeout,
             s.c`loaded, s.c.xram, s.c.iram
    ensures s.Represents(Complete(h, payload))
    ensures s.c.xram[..] == old(s.c.xram[..]) && s.c.loaded == old(s.c.loaded)
    ensures payload == [] ==> s.c.iram[..] == old(s.c.iram[..])
    ensures |payload| <= 12 && s.c.iram[..] == Filled(old(s.c.iram[..]), payload)
  {
    LengthBound(h);
    FilledNothing(s.c.iram[..]);
    hide PayloadLength, Filled, Cell;
    var d := s.ReceiveByte(h, Idle);
    var n := |payload|;
    assert payload[..0] == [];
    var i := 0;
    while i < n
      invariant 0 <= i <= n
      invariant s.Represents(if i < n then Payload(h, payload[..i]) else Complete(h, payload[..n]))
      invariant s.c.xram[..] == old(s.c.xram[..]) && s.c.loaded == old(s.c.loaded)
      invariant s.c.iram[..] == Filled(old(s.c.iram[..]), payload[..i])
    {
      FilledSnoc(old(s.c.iram[..]), payload[..i], payload[i]);
      assert payload[..i + 1] == payload[..i] + [payload[i]];
      d := s.ReceiveByte(payload[i], Payload(h, payload[..i]));
      i := i + 1;
    }
    assert payload[..n] == payload;
  }

  /** Only queries read internal RAM for their reply, and they have no operands that could change it. */
  lemma ReplyKeeps(h: byte, t: byte, iram: seq<byte>, iram': seq<byte>, mem: Memory, p1: byte,
                   ramOk: bool, loaded: bool, running: bool, accepted: bool)
    requires |iram| == |iram'| == 0x80 && (PayloadLength(h) == 0 ==> iram == iram')
    ensures ReplyTo(h, t, iram, mem, p1, ramOk, loaded, running, accepted)
            == ReplyTo(h, t, iram', mem, p1, ramOk, loaded, running, accepted)
  {
  }

  /**
   A whole exchange with the host: header, operands and terminator come in, and what goes out on the
   line, whatever the header and the terminator, is exactly the reply to that frame; what the frame
   does it does to internal RAM as the operands have left it.
  */
  method Exchange(s: SerialPort, h: byte, payload: seq<byte>, t: byte, p1: byte, dph: byte)
    returns (effect: Effect, ghost got: seq<byte>)
    requires s.c.Valid() && AtRest(s) && !IsIgnored(h) && h != BLOCK && |payload| == PayloadLength(h)
    requires t == ETX && h > 0x80 && s.c.loaded ==> Fits(s.c.xram[..], s.c.page) && LabelsInRange(s.c.xram[..], s.c.page)
    modifies s, s.c, s.c.xram, s.c.iram
    ensures AtRest(s)
    ensures var reply := old(ReplyTo(h, t, s.c.iram[..], s.c.xram[..], p1, s.c.ramOk, s.c.loaded, s.c.running,
                                     t == ETX && h > 0x80 && s.c.loaded && Accepts(s.c.xram[..], s.c.page)));
            s.wire == old(s.wire) + ReplyBytes(reply, h, s.c.xram[..], s.c.page)
    ensures t != ETX || h <= 0x80 ==> s.c.xram[..] == old(s.c.xram[..]) && s.c.loaded == old(s.c.loaded)
    ensures |payload| <= 12 && got == Filled(old(s.c.iram[..]), payload)
    ensures t == ETX && h < 0x80 ==>
              && OperatorCells(h, got, s.c.iram[..])
              && OperatorMasks(h, got[BUFFER], old(s.c.Control()), s.c.Control())
              && effect == if 0x60 <= h < 0x70 && !Bit1(h) then Servo(Bit0(h))
                           else if (h < 0x40 && !Bit4(h)) || h >= 0x70 then Watch(100) else Nothing
  {
    hide Filled, OperatorCells, OperatorMasks;
    hide Pending, Sound, ReplyTo, ReplyBytes, Accepts, LabelsInRange, PayloadLength, IsEmptyProgram, Prepared;
    hide SerialPort.Represents, Between, Silent, QueueOf, Quiet, Arms;
    LineIdle(s);
    SendFrame(s, h, payload);
    got := s.c.iram[..];
    ReplyKeeps(h, t, old(s.c.iram[..]), s.c.iram[..], s.c.xram[..], p1, s.c.ramOk, s.c.loaded, s.c.running,
               t == ETX && h > 0x80 && s.c.loaded && Accepts(s.c.xram[..], s.c.page));
    Terminate(s, t, h, payload);
    SilentIsQuiet(s);
    ghost var r4;
    effect, r4 := DispatchFrame(s, h, t, p1, dph);
    Finish(s);
  }

  /** A block upload, ended by ETX: accepted exactly if the bytes sent are a valid program. */
  method UploadProgram(s: SerialPort, body: seq<byte>)
    requires s.c.Valid() && AtRest(s) && s.c.ramOk
    requires 1 <= |body| <= 0x1F00 && ProperLabels(body)
    modifies s, s.c, s.c.xram, s.c.iram
    ensures AtRest(s) && (s.c.loaded <==> ValidBody(body))
    ensures s.wire == old(s.wire) + (if s.c.loaded then [BLOCK, ETX] else [0xF5])
    ensures s.c.loaded ==> Fits(s.c.xram[..], s.c.page) && Holds(s.c.xram[..], s.c.page, ZeroedBody(body))
    ensures !s.c.loaded ==> IsEmptyProgram(s.c.xram[..], s.c.page)
  {
    hide Stored, Prepared, Accepts, ProperLabels, Pending, Sound, IsEmptyProgram, ValidBody, Holds, ZeroedBody, LabelsInRange;
    hide SerialPort.Represents, Between, Silent, QueueOf, Quiet, Arms;
    LineIdle(s);
    SendBlock(s, body);
    ghost var mem: Memory := s.c.xram[..];
    BlockIsStored(s, body);
    StoredHolds(mem, s.c.page, body);
    AcceptsBody(mem, s.c.page, body);
    EndIsNeeded(body);
    Terminate(s, ETX, BLOCK, body);
    SilentIsQuiet(s);
    var effect, r4 := DispatchFrame(s, BLOCK, ETX, 0, 0);
    if s.c.loaded {
      PreparedHolds(mem, s.c.page, body);
    }
    Finish(s);
  }

  lemma EndIsNeeded(body: seq<byte>)
    ensures ValidBody(body) ==> body != [] && body[|body| - 1] == END
  {
  }

  /** A block that ends without ETX is not validated: it counts as loaded just because its last byte is END. */
  method UploadUnchecked(s: SerialPort, body: seq<byte>, t: byte)
    requires s.c.Valid() && AtRest(s) && 1 <= |body| <= 0x1F00 && t != ETX
    modifies s, s.c, s.c.xram, s.c.iram
    ensures AtRest(s) && (s.c.loaded <==> body[|body| - 1] == END)
    ensures s.wire == old(s.wire) + [0xF3] && Holds(s.c.xram[..], s.c.page, body)
  {
    hide Stored, Pending, Sound, Holds;
    hide SerialPort.Represents, Between, Silent, QueueOf, Quiet, Arms;
    LineIdle(s);
    SendBlock(s, body);
    BlockIsStored(s, body);
    StoredHolds(s.c.xram[..], s.c.page, body);
    Terminate(s, t, BLOCK, body);
    SilentIsQuiet(s);
    var effect, r4 := DispatchFrame(s, BLOCK, t, 0, 0);
    Finish(s);
  }

  /**
   So a host can leave a program of stored size 0xFD loaded, and read it back: of 257 bytes it gets
   one, and ETX.
  */
  method ShortReadBack(s: SerialPort)
    requires s.c.Valid() && AtRest(s)
    modifies s, s.c, s.c.xram, s.c.iram
    ensures s.c.loaded && Size(s.c.xram[..], s.c.page) == 0xFD
    ensures s.wire == old(s.wire) + [0xF3] + [s.c.xram[s.c.page * 256 + 0xFD], ETX]
  {
    hide Pending, Sound, Stream, LabelsInRange, Accepts;
    var body: seq<byte> := seq(0xFE, (i: nat) => END);
    UploadUnchecked(s, body, 0x00);
    SizeBytes(s.c.xram[..], s.c.page);
    OneByte(s.c.xram[..], s.c.page);
    var effect, got := Exchange(s, READ_BACK, [], ETX, 0, 0);
  }

  lemma SizeBytes(mem: Memory, p: SramPage)
    ensures Size(mem, p) == 0xFD ==> mem[p * 256 + 0xFE] == 0xFD && mem[p * 256 + 0xFF] == 0
  {
  }

  lemma OneByte(mem: Memory, p: SramPage)
    requires mem[p * 256 + 0xFE] == 0xFD && mem[p * 256 + 0xFF] == 0
    ensures ReadBackBytes(mem, p) == [mem[p * 256 + 0xFD]]
  {
    assert Stream(mem, p * 256 + 0xFD, 1) == [mem[p * 256 + 0xFD]] + Stream(mem, IncWord(p * 256 + 0xFD), 0);
  }

  lemma HeldReadBack(mem: Memory, p: SramPage, body: seq<byte>)
    requires Fits(mem, p) && Holds(mem, p, body) && |body| % 8 == 1
    ensures ReadBackBytes(mem, p) == [mem[p * 256 + 0xFD], Lo(|body| - 1), Hi(|body| - 1)] + body
  {
    hide ReadBackBytes, Size, Lo, Hi, Base;
    HeldWhole(mem, p, body);
    ReadBackEnds(mem, p);
    ReadBackIsProgram(mem, p);
  }

  lemma HeldWhole(mem: Memory, p: SramPage, body: seq<byte>)
    requires Holds(mem, p, body)
    ensures Size(mem, p) == |body| - 1 && Base(p) + |body| <= 0x1_0000 && mem[Base(p)..Base(p) + Size(mem, p) + 1] == body
  {
  }

  /** Command 0x80 sends the header bytes, the body up to and including END, and ETX. */
  method ReadProgram(s: SerialPort, body: seq<byte>)
    requires s.c.Valid() && AtRest(s) && s.c.loaded
    requires Fits(s.c.xram[..], s.c.page) && Holds(s.c.xram[..], s.c.page, body) && |body| % 8 == 1
    modifies s, s.c, s.c.xram, s.c.iram
    ensures AtRest(s) && s.c.xram[..] == old(s.c.xram[..])
    ensures s.wire == old(s.wire) + [s.c.xram[s.c.page * 256 + 0xFD], Lo(|body| - 1), Hi(|body| - 1)] + body + [ETX]
  {
    hide Pending, Sound, ReadBackBytes, Holds, Size, Accepts, LabelsInRange;
    HeldReadBack(s.c.xram[..], s.c.page, body);
    var effect, got := Exchange(s, READ_BACK, [], ETX, 0, 0);
  }

  /**
   Upload and readback: an accepted program comes back byte for byte, END included, with the
   loop counters zeroed, behind the header that holds its size.
  */
  method UploadThenReadBack(s: SerialPort, body: seq<byte>)
    requires s.c.Valid() && AtRest(s) && s.c.ramOk
    requires 1 <= |body| <= 0x1F00 && ProperLabels(body) && ValidBody(body)
    modifies s, s.c, s.c.xram, s.c.iram
    ensures s.wire == old(s.wire) + [BLOCK, ETX, s.c.xram[s.c.page * 256 + 0xFD], Lo(|body| - 1), Hi(|body| - 1)]
                      + ZeroedBody(body) + [ETX]
  {
    UploadProgram(s, body);
    ReadProgram(s, ZeroedBody(body));
  }
}
