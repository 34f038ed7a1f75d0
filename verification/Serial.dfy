/** The serial interrupt's two halves: the receive parser (0x0305-0x03A7) and the transmit helper (0x0542). */
module Serial {
  import opened Bytes
  import opened ProgramLayout
  import opened ControllerState
  import opened ReceiveSpec

  const BUFFER: nat := 0x60
  const BUFFER_2: nat := 0x70

  /** Where byte i of a payload goes. */
  function Cell(i: nat): nat { if i < 6 then BUFFER + i else BUFFER_2 + (i - 6) }

  /** Where byte i of a block goes. */
  function BodyCell(p: SramPage, i: nat): word { (Base(p) + i) % 0x1_0000 }

  /** The bytes got of a block of n are in the body, and the header holds its size n - 1. */
  predicate Stored(mem: Memory, p: SramPage, n: nat, got: seq<byte>) {
    && (forall i :: 0 <= i < |got| ==> mem[BodyCell(p, i)] == got[i])
    && (n <= 0x1F00 ==> Size(mem, p) == n - 1)
  }

  class SerialPort {
    const c: Controller
    var inFrame: bool      // 24h.0
    var complete: bool     // 24h.1
    var seen: bool         // 24h.2
    var second: bool       // 24h.3
    var counting: bool     // 24h.4
    var r0: byte           // register bank 2
    var r1: byte
    var r2: byte
    var r3: byte
    var r4: byte
    var r5: byte
    var r6: byte
    var ptrLo: byte        // 30h
    var ptrHi: byte        // 31h
    var timeout: byte      // 18h
    var tick: bool         // 23h.7
    var token: bool        // 23h.0: the transmitter is idle
    var sendBuffer: bool   // 25h.1
    var sendKey: bool      // 25h.2
    var sendStatus: bool   // 25h.3
    var lastSent: bool     // 25h.4: the buffer is out, ETX is due
    var sendEtx: bool      // 25h.5
    var sendStream: bool   // 25h.6
    var awaiting: bool     // 25h.7: a position command waits for arrival
    var wantsKey: bool     // 23h.1: it asked for an acknowledgment
    var ti: bool           // SCON.1
    var busy: bool         // a byte is in the shift register
    var wire: seq<byte>    // everything written to SBUF

    constructor (c: Controller)
      ensures this.c == c && !inFrame && !complete && !second && !counting && !seen
      ensures token && !ti && !busy && wire == []
      ensures !sendBuffer && !sendKey && !sendStatus && !lastSent && !sendEtx && !sendStream
    {
      this.c := c;
      inFrame, complete, seen, second, counting := false, false, false, false, false;
      token, ti, busy, wire := true, false, false, [];
      sendBuffer, sendKey, sendStatus, lastSent, sendEtx, sendStream := false, false, false, false, false, false;
    }

    /** Registers and flags stand for the parser state q. */
    ghost predicate Represents(q: Parser)
      requires c.Valid()
      reads this, c, c.xram, c.iram
    {
      match q
      case Idle => !inFrame && !complete && !second
      case Payload(h, got) =>
        && inFrame && !complete && r6 == h && h != BLOCK && |got| < PayloadLength(h)
        && (second <==> PayloadLength(h) == 12 && |got| < 6)
        && r0 == Cell(|got|) && r2 == (if second then 6 - |got| else PayloadLength(h) - |got|)
        && forall i :: 0 <= i < |got| ==> c.iram[Cell(i)] == got[i]
      case BlockLow => inFrame && !complete && r6 == BLOCK && second
      case BlockHigh(lo) => inFrame && !complete && r6 == BLOCK && !second && counting && r0 == lo
      case Block(n, got) =>
        && inFrame && !complete && r6 == BLOCK && !second && !counting && !c.loaded
        && |got| < n <= 0x1_0000 && n - |got| == Turns(r0) + 256 * (Turns(r2) - 1)
        && Pair(ptrHi, ptrLo) == BodyCell(c.page, |got|)
        && Stored(c.xram[..], c.page, n, got)
      case Complete(h, payload) =>
        && inFrame && complete && r6 == h
        && (h != BLOCK ==> |payload| == PayloadLength(h) && forall i :: 0 <= i < |payload| ==> c.iram[Cell(i)] == payload[i])
        && (h == BLOCK ==> 0 < |payload| <= 0x1_0000 && Stored(c.xram[..], c.page, |payload|, payload)
                           && (c.loaded <==> payload[|payload| - 1] == END))
    }

    /** DJNZ R2 with R0 as inner counter (0x036F): true when both have run out. */
    method CountDown() returns (done: bool)
      modifies this`r0, this`r2
      ensures var left := old(Turns(r0) + 256 * (Turns(r2) - 1));
              if done then left == 1 else left - 1 == Turns(r0) + 256 * (Turns(r2) - 1)
    {
      r0 := Dec(r0);
      if r0 != 0 {
        return false;
      }
      r2 := Dec(r2);
      done := r2 == 0;
    }
  
    /** 0x0316: the first byte of a frame. */
    method Header(b: byte)
      requires c.Valid() && Represents(Idle)
      modifies this`inFrame, this`complete, this`second, this`r0, this`r2, this`r6
      ensures Represents(Next(Idle, b))
    {
      inFrame := true;
      r6 := b;
      r0 := BUFFER;
      r2 := 1;
      HeaderBits(b);
      if Bit7(b) {
        if b == BLOCK {
          second := true;
        } else if b as int + 0x77 >= 0x100 {
          inFrame := false;
        } else if b as int + 0x77 + 2 < 0x100 {
          complete := true;
        }
      } else if Bit6(b) {
        if !Bit5(b) || !Bit4(b) {
          complete := true;
        } else {
          r2 := r2 + 1;
          if b % 8 == 7 {
            second := true;
            r2 := 6;
          }
        }
      } else if !Bit4(b) && b % 8 == 7 {
        r2 := 6;
      }
    }

    /** jump_0398: an operand byte of a frame that is no block. */
    method Operand(b: byte, ghost q: Parser)
      requires c.Valid() && q.Payload? && Represents(q)
      modifies this`complete, this`second, this`r0, this`r2, c.iram
      ensures Represents(Next(q, b))
      ensures |q.got| < 12 && c.iram[..] == old(c.iram[..])[Cell(|q.got|) := b]
    {
      LengthBound(q.header);
      c.iram[r0] := b;
      r0 := r0 + 1;
      r2 := r2 - 1;
      if r2 == 0 {
        if second {
          second := false;
          r2 := 6;
          r0 := BUFFER_2;
        } else {
          complete := true;
        }
      }
    }

    /** jump_0380: the second length byte writes the size into the header and starts the block. */
    method StartBlock(b: byte, ghost q: Parser)
      requires c.Valid() && q.BlockHigh? && Represents(q)
      modifies this`counting, this`r2, this`ptrLo, this`ptrHi, c`loaded, c.xram
      ensures Represents(Next(q, b))
      ensures forall a: word :: a != c.page * 256 + 0xFE && a != c.page * 256 + 0xFF ==> c.xram[a] == old(c.xram[a])
    {
      BlockCounts(q.lo, b);
      BlockHeader(c.xram[..], c.page, q.lo, b);
      hide Turns, BlockLength, Stored, Inc, Dec;
      counting := false;
      r2 := b;
      ptrLo := 0;
      ptrHi := c.page + 1;
      c.Store(Pair(c.page, 0xFF), r2);
      c.Store(Pair(c.page, 0xFE), Dec(r0));
      c.loaded := false;
      r2 := Inc(r2);
    }

    /** 0x0362: a byte of the block goes straight to SRAM. */
    method BlockByte(b: byte, ghost q: Parser)
      requires c.Valid() && q.Block? && Represents(q)
      modifies this`complete, this`r0, this`r2, this`ptrLo, this`ptrHi, c`loaded, c.xram
      ensures Represents(Next(q, b))
      ensures forall a: word :: a != BodyCell(c.page, |q.got|) ==> c.xram[a] == old(c.xram[a])
    {
      hide Stored, BodyCell;
      var dptr := Pair(ptrHi, ptrLo);
      KeepsStored(c.xram[..], c.page, q.length, q.got, b);
      NextBodyCell(c.page, |q.got|);
      c.Store(dptr, b);
      ptrHi, ptrLo := IncPair(ptrHi, ptrLo);
      var done := CountDown();
      if done {
        if c.xram[dptr] == END {
          c.loaded := true;
        }
        complete := true;
      }
    }

    /**
     0x0308: one received byte. True means that the frame collected before it, with header R6,
     is dispatched with this byte as its terminator.
    */
    method ReceiveByte(b: byte, ghost q: Parser) returns (dispatch: bool)
      requires c.Valid() && Represents(q)
      modifies this`inFrame, this`complete, this`seen, this`second, this`counting, this`r0, this`r2, this`r6,
               this`ptrLo, this`ptrHi, this`timeout, c`loaded, c.xram, c.iram
      ensures Represents(Next(q, b))
      ensures dispatch <==> q.Complete?
      ensures dispatch ==> old(r6) == q.header
      ensures seen == !dispatch && timeout == 20
      ensures if q.Payload? then |q.got| < 12 && c.iram[..] == old(c.iram[..])[Cell(|q.got|) := b]
              else c.iram[..] == old(c.iram[..])
      ensures q.BlockHigh? || q.Block? || (c.xram[..] == old(c.xram[..]) && c.loaded == old(c.loaded))
    {
      hide Next, Stored;
      NextMeans(q, b);
      timeout := 20;
      seen := true;
      dispatch := false;
      if !inFrame {
        Header(b);
      } else if complete {
        inFrame, complete, seen, second, counting := false, false, false, false, false;
        dispatch := true;
      } else if r6 != BLOCK {
        Operand(b, q);
      } else if second {
        second := false;
        r0 := b;
        counting := true;
      } else if counting {
        StartBlock(b, q);
      } else {
        BlockByte(b, q);
      }
    }

    /**
     0x0785: the main loop's serial tick. After twenty ticks without a byte the frame is given up
     by clearing the low half of the flag byte, which spares the block-count flag.
    */
    method SerialTick(ghost q: Parser) returns (expired: bool)
      requires c.Valid()
      modifies this`tick, this`timeout, this`inFrame, this`complete, this`seen, this`second, this`r4, this`sendStatus
      ensures expired <==> old(tick && seen && timeout == 1)
      ensures expired ==> Represents(Idle) && !seen && counting == old(counting) && r4 == 0xF1 && sendStatus
      ensures !expired ==> sendStatus == old(sendStatus) && r4 == old(r4) && seen == old(seen)
      ensures timeout == old(if tick && seen then Dec(timeout) else timeout)
      ensures !expired && old(Represents(q)) ==> Represents(q)
      ensures !tick
    {
      expired := false;
      if !tick {
        return;
      }
      tick := false;
      if !seen {
        return;
      }
      timeout := Dec(timeout);
      if timeout != 0 {
        return;
      }
      inFrame, complete, seen, second := false, false, false, false;
      r4, sendStatus := 0xF1, true;
      expired := true;
    }

    /** The parser's state and timeout are those of l. */
    ghost predicate At(l: Line)
      requires c.Valid()
      reads this, c, c.xram, c.iram
    {
      Represents(l.parser) && seen == l.seen && (l.seen ==> timeout == l.left)
    }

    /** 0x0089: the timer interrupt's part. */
    method TimerTick(ghost q: Parser)
      requires c.Valid() && Represents(q)
      modifies this`tick
      ensures tick && Represents(q)
    {
      tick := true;
    }

    lemma PayloadIsInPlace(h: byte, payload: seq<byte>)
      requires c.Valid() && Represents(Complete(h, payload))
      ensures |payload| <= 0x1_0000 && (h != BLOCK ==> |payload| <= 12)
      ensures PayloadAt(c.iram[..], c.xram[..], c.page, h, |payload|) == payload
    {
      LengthBound(h);
    }

    /** One byte or tick; with a byte that dispatches, the frame is read back from where its bytes have been put. */
    method Happen(e: LineEvent, l: Line) returns (dispatched: seq<Frame>)
      requires c.Valid() && At(l)
      modifies this, c`loaded, c.xram, c.iram
      ensures At(Received(l, e))
      ensures dispatched == Released(l.parser, e)
    {
      hide Next, Represents;
      dispatched := [];
      match e {
        case Arrives(b) =>
          var header := r6;
          if l.parser.Complete? {
            PayloadIsInPlace(l.parser.header, l.parser.payload);
          }
          var dispatch := ReceiveByte(b, l.parser);
          if dispatch {
            dispatched := [Frame(header, PayloadAt(c.iram[..], c.xram[..], c.page, header, |l.parser.payload|), b)];
          }
        case Tick =>
          TimerTick(l.parser);
          var expired := SerialTick(l.parser);
      }
    }

    /**
     A whole stream of bytes and ticks, from any idle state, whatever the block-count flag was left
     at: the frames dispatched, with the payloads found in memory at that moment, are those of the
     reference definition, part by part between timeouts.
    */
    method ReceiveStream(es: seq<LineEvent>, start: Line) returns (frames: seq<Frame>)
      requires c.Valid() && At(start) && start.parser == Idle
      modifies this, c`loaded, c.xram, c.iram
      ensures frames == CutFrames(start, es)
    {
      hide Received, Represents, CutFrames;
      StreamIsCut(start, es);
      frames := [];
      var l := start;
      var i := 0;
      while i < |es|
        invariant 0 <= i <= |es| && At(l)
        invariant StreamFrames(start, es) == frames + StreamFrames(l, es[i..])
      {
        assert es[i..][1..] == es[i + 1..];
        var dispatched := Happen(es[i], l);
        frames := frames + dispatched;
        l := Received(l, es[i]);
        i := i + 1;
      }
      assert es[i..] == [];
    }
  }

  /** What the memories hold of a payload of n bytes. */
  function PayloadAt(iram: seq<byte>, mem: Memory, p: SramPage, h: byte, n: nat): seq<byte>
    requires |iram| == 0x80 && (h != BLOCK ==> n <= 12)
  {
    if h == BLOCK then seq(n, (i: nat) => mem[BodyCell(p, i)])
    else seq(n, (i: nat) requires i < n => iram[Cell(i)])
  }

  /** What the parser's next state is, where the class of the state alone decides it. */
  lemma NextMeans(q: Parser, b: byte)
    ensures q.BlockLow? ==> Next(q, b) == BlockHigh(b)
    ensures q.Complete? ==> Next(q, b) == Idle
  {
  }

  lemma HeaderBits(b: byte)
    ensures Bit7(b) <==> b >= 0x80
    ensures b < 0x80 ==> (Bit6(b) <==> b >= 0x40)
    ensures 0x40 <= b < 0x80 ==> (Bit5(b) && Bit4(b) <==> b >= 0x70)
  {
  }

  lemma LengthBound(h: byte)
    ensures PayloadLength(h) <= 6 || PayloadLength(h) == 12
  {
  }

  lemma NextBodyCell(p: SramPage, i: nat)
    requires i < 0x1_0000
    ensures IncWord(BodyCell(p, i)) == BodyCell(p, i + 1)
    ensures forall j :: 0 <= j < i ==> BodyCell(p, j) != BodyCell(p, i)
    ensures i < 0x1F00 ==> BodyCell(p, i) == Base(p) + i
  {
  }

  /** The two counters of a block hold the number its length bytes denote. */
  lemma BlockCounts(lo: byte, hi: byte)
    ensures 0 < BlockLength(lo, hi) <= 0x1_0000
    ensures BlockLength(lo, hi) == Turns(lo) + 256 * (Turns(Inc(hi)) - 1)
  {
  }

  /** The header bytes written for a block hold that number less one, as long as it fits the SRAM. */
  lemma BlockHeader(mem: Memory, p: SramPage, lo: byte, hi: byte)
    ensures Stored(mem[Pair(p, 0xFF) := hi][Pair(p, 0xFE) := Dec(lo)], p, BlockLength(lo, hi), [])
  {
    LengthLessOne(lo, hi);
    hide BlockLength, Dec;
  }

  lemma LengthLessOne(lo: byte, hi: byte)
    ensures BlockLength(lo, hi) <= 0x1F00 ==> Pair(hi, Dec(lo)) == BlockLength(lo, hi) - 1
  {
  }

  lemma KeepsStored(mem: Memory, p: SramPage, n: nat, got: seq<byte>, b: byte)
    requires |got| < n <= 0x1_0000 && Stored(mem, p, n, got)
    ensures Stored(mem[BodyCell(p, |got|) := b], p, n, got + [b])
  {
    NextBodyCell(p, |got|);
  }
}
