/** What a complete frame does (0x03A9 on): terminator, class, effect, and the reply it arms. */
module Dispatch {
  import opened Bytes
  import opened ProgramLayout
  import opened ControllerState
  import opened InterpreterSpec
  import opened ReceiveSpec
  import opened Serial
  import opened Transmit
  import HostMoves
  import Interpreter
  import Prepare

  const RESPONSE: nat := 0x68
  const FEEDBACK: nat := 0x58
  const INPUTS: nat := 0x5E

  /** The values a query reports: positions, or the digital inputs its low bits select. */
  function Values(h: byte, iram: seq<byte>, p1: byte): seq<byte>
    requires |iram| == 0x80
  {
    if Bit4(h) then
      (if Bit0(h) then [iram[INPUTS]] else []) + (if Bit1(h) then [iram[INPUTS + 1]] else []) + (if Bit2(h) then [p1] else [])
    else if h % 8 == 7 then iram[FEEDBACK..FEEDBACK + 6]
    else [iram[FEEDBACK + h % 8]]
  }

  /** What command 0x80 streams of the stored program. */
  function ReadBackBytes(mem: Memory, p: SramPage): seq<byte> {
    Stream(mem, p * 256 + 0xFD,
           StreamLength((mem[p * 256 + 0xFE] as int + 4) % 256, Inc(mem[p * 256 + 0xFF])))
  }

  /** Nothing is left to send. */
  predicate Quiet(q: Queue) { IsEmpty(q) && !q.last }

  /** The queue with a response of n bytes armed, a keyword, a status byte, or the stored program. */
  function Responding(q: Queue, n: byte): Queue { q.(buffer := true, r1 := RESPONSE, r3 := n) }

  function Acknowledging(q: Queue): Queue { q.(key := true) }

  function Reporting(q: Queue, code: byte): Queue { q.(status := true, key := false, r4 := code) }

  function Streaming(q: Queue, mem: Memory, p: SramPage): Queue {
    q.(stream := true, ptr := p * 256 + 0xFD,
       r1 := (mem[p * 256 + 0xFE] as int + 4) % 256, r3 := Inc(mem[p * 256 + 0xFF]))
  }

  /** A response goes out as built, and nothing else, exactly if it finds nothing to send but an unfinished response. */
  lemma ResponseIff(q: Queue, n: byte, iram: seq<byte>, mem: Memory)
    requires Sound(q) && |iram| == 0x80 && 1 <= n <= 8 && iram[RESPONSE] != ETX
    ensures Sound(Responding(q, n)) && Pending(Responding(q, n), iram, mem) == iram[RESPONSE..RESPONSE + n] + [ETX]
            <==> !q.last && !q.stream && !q.key && !q.etx && !q.status
  {
    hide Stream, StreamLength;
    var reply := iram[RESPONSE..RESPONSE + n] + [ETX];
    assert reply[0] == iram[RESPONSE];
    if !q.stream {
      var sent := Pending(Responding(q, n), iram, mem);
      assert if q.last then sent[0] == ETX else sent[..n + 1] == reply;
    }
  }

  /** A keyword and its ETX do exactly if they find no response, no stream and no status byte. */
  lemma KeywordIff(q: Queue, iram: seq<byte>, mem: Memory)
    requires Sound(q) && |iram| == 0x80
    ensures Sound(Acknowledging(q)) && Pending(Acknowledging(q), iram, mem) == [q.r5, ETX]
            <==> !q.buffer && !q.stream && !q.status
  {
    hide Stream, StreamLength;
    StreamCounts(q.r1, q.r3);
  }

  /** A status byte does exactly if it finds no response, no stream and no ETX still to come; it replaces a keyword. */
  lemma StatusIff(q: Queue, code: byte, iram: seq<byte>, mem: Memory)
    requires Sound(q) && |iram| == 0x80
    ensures Sound(Reporting(q, code)) && Pending(Reporting(q, code), iram, mem) == [code]
            <==> !q.buffer && !q.stream && !q.etx
  {
    hide Stream, StreamLength;
  }

  /** The stored program does exactly if it finds no response, no keyword and no status byte. */
  lemma StreamIff(q: Queue, iram: seq<byte>, mem: Memory, p: SramPage)
    requires Sound(q) && |iram| == 0x80
    ensures Sound(Streaming(q, mem, p)) && Pending(Streaming(q, mem, p), iram, mem) == ReadBackBytes(mem, p) + [ETX]
            <==> !q.buffer && !q.key && !q.status
  {
    hide Stream, StreamLength;
  }

  /** A query that arrives when only the ETX of an earlier one is still to go loses its answer. */
  lemma LateQueryIsLost(q: Queue, n: byte, iram: seq<byte>, mem: Memory)
    requires |iram| == 0x80 && q.buffer && q.last && !q.stream && !q.key && !q.etx && !q.status
    ensures Sound(Responding(q, n)) && Pending(Responding(q, n), iram, mem) == [ETX]
  {
  }

  /** jump_0486: arms the response buffer with n bytes. */
  method SendResponse(s: SerialPort, n: byte)
    modifies s`sendBuffer, s`r1, s`r3
    ensures QueueOf(s) == Responding(old(QueueOf(s)), n)
  {
    s.r3 := n;
    s.sendBuffer := true;
    s.r1 := RESPONSE;
  }

  /** 0x0446: the queries 0x40 to 0x5F. */
  method Query(s: SerialPort, h: byte, p1: byte) returns (n: byte)
    requires s.c.Valid() && 0x40 <= h < 0x60
    modifies s`sendBuffer, s`r1, s`r3, s.c.iram
    ensures 1 <= n <= 8 && QueueOf(s) == Responding(old(QueueOf(s)), n)
    ensures s.c.iram[RESPONSE..RESPONSE + n] == [h] + old(Values(h, s.c.iram[..], p1))
    ensures forall i :: 0 <= i < RESPONSE || RESPONSE + 8 <= i < 0x80 ==> s.c.iram[i] == old(s.c.iram[i])
  {
    n := BuildResponse(s.c, h, p1);
    SendResponse(s, n);
  }

  method BuildResponse(c: Controller, h: byte, p1: byte) returns (r3: byte)
    requires c.Valid()
    modifies c.iram
    ensures 1 <= r3 <= 8 && c.iram[RESPONSE..RESPONSE + r3] == [h] + old(Values(h, c.iram[..], p1))
    ensures forall i :: 0 <= i < RESPONSE || RESPONSE + 8 <= i < 0x80 ==> c.iram[i] == old(c.iram[i])
  {
    var r1 := RESPONSE;
    c.iram[r1] := h;
    r3 := 1;
    if !Bit4(h) {
      if h % 8 == 7 {
        forall i | 0 <= i < 6 {
          c.iram[RESPONSE + 1 + i] := c.iram[FEEDBACK + i];
        }
        r3 := 7;
        assert c.iram[RESPONSE..RESPONSE + 7] == [h] + old(c.iram[FEEDBACK..FEEDBACK + 6]);
      } else {
        c.iram[RESPONSE + 1] := c.iram[FEEDBACK + h % 8];
        r3 := 2;
        assert c.iram[RESPONSE..RESPONSE + 2] == [h, old(c.iram[FEEDBACK + h % 8])];
      }
      return;
    }
    if Bit0(h) {
      r1, r3 := r1 + 1, r3 + 1;
      c.iram[r1] := c.iram[INPUTS];
    }
    if Bit1(h) {
      r1, r3 := r1 + 1, r3 + 1;
      c.iram[r1] := c.iram[INPUTS + 1];
    }
    if Bit2(h) {
      r1, r3 := r1 + 1, r3 + 1;
      c.iram[r1] := p1;
    }
  }

  /** jump_050B: the serial number, three bytes of external memory from 0x0020. */
  method SerialNumber(s: SerialPort, h: byte)
    requires s.c.Valid()
    modifies s`sendBuffer, s`r1, s`r3, s.c.iram
    ensures QueueOf(s) == Responding(old(QueueOf(s)), 4)
    ensures s.c.iram[RESPONSE..RESPONSE + 4] == [h] + s.c.xram[0x20..0x23]
  {
    s.c.iram[RESPONSE] := h;
    s.c.iram[RESPONSE + 1] := s.c.xram[0x20];
    s.c.iram[RESPONSE + 2] := s.c.xram[0x21];
    s.c.iram[RESPONSE + 3] := s.c.xram[0x22];
    SendResponse(s, 4);
  }

  /** jump_03ED and jump_03C1: the two short replies; R5 and R4 hold what they send. */
  method Acknowledge(s: SerialPort)
    modifies s`sendKey
    ensures QueueOf(s) == Acknowledging(old(QueueOf(s)))
  {
    s.sendKey := true;
  }

  method Report(s: SerialPort, code: byte)
    modifies s`sendKey, s`sendStatus, s`r4
    ensures QueueOf(s) == Reporting(old(QueueOf(s)), code)
  {
    s.r4 := code;
    s.sendStatus := true;
    s.sendKey := false;
  }

  /** 0x03B9 and jump_03C9: arms the stream of header and body; the byte count is the stored size plus four. */
  method ReadBack(s: SerialPort)
    requires s.c.Valid()
    modifies s`sendKey, s`sendStatus, s`sendStream, s`r1, s`r3, s`r4, s`ptrLo, s`ptrHi, s.c`loaded
    ensures s.c.loaded == old(s.c.loaded)
    ensures var q := old(QueueOf(s)).(r4 := 0xF4);
            QueueOf(s) == if s.c.loaded then Streaming(q, s.c.xram[..], s.c.page) else Reporting(q, 0xF4)
  {
    s.r4 := 0xF4;
    if !s.c.loaded {
      s.c.loaded := false;
      Report(s, 0xF4);
      return;
    }
    s.sendStream := true;
    s.r1 := (s.c.xram[Pair(s.c.page, 0xFE)] as int + 4) % 256;
    s.r3 := Inc(s.c.xram[Pair(s.c.page, 0xFF)]);
    s.ptrLo := 0xFD;
    s.ptrHi := s.c.page;
  }

  /** jump_03E1: the end of an upload validates the program. */
  method EndUpload(s: SerialPort)
    requires s.c.Valid()
    requires s.c.ramOk && s.c.loaded ==> Fits(s.c.xram[..], s.c.page) && LabelsInRange(s.c.xram[..], s.c.page)
    modifies s`sendKey, s`sendStatus, s`r4, s.c`loaded, s.c`running, s.c`motion, s.c`stepping, s.c.xram, s.c.iram
    ensures s.c.loaded <==> old(s.c.ramOk && s.c.loaded && Accepts(s.c.xram[..], s.c.page))
    ensures s.c.loaded ==> s.c.xram[..] == old(Prepared(s.c.xram[..], s.c.page))
    ensures old(s.c.ramOk) && !s.c.loaded ==> IsEmptyProgram(s.c.xram[..], s.c.page)
    ensures !old(s.c.ramOk) ==> s.c.xram[..] == old(s.c.xram[..])
    ensures QueueOf(s) == if s.c.loaded then Acknowledging(old(QueueOf(s)).(r4 := 0xF5))
                          else Reporting(old(QueueOf(s)), if old(s.c.ramOk) then 0xF5 else 0xF4)
  {
    hide Prepared, Accepts, IsEmptyProgram, LabelsInRange, Prepare.OutsideIndexing;
    s.r4 := 0xF4;
    if !s.c.ramOk {
      s.c.loaded := false;
      Report(s, 0xF4);
      return;
    }
    if s.c.loaded {
      ghost var visited := Prepare.Prepare(s.c);
    } else {
      Prepare.Reject(s.c);
    }
    s.r4 := 0xF5;
    if s.c.loaded {
      Acknowledge(s);
    } else {
      Report(s, 0xF5);
    }
  }

  /** The interpreter's flags after one of the commands 0x82 to 0x88. */
  function CommandControl(k: Control, h: byte, loaded: bool, accepted: bool): Control {
    if !loaded then k
    else if h == 0x82 then AfterStart(NotWaiting(k), accepted)
    else if h == 0x87 then AfterStart(k, accepted)
    else if h == 0x83 || h == 0x88 then Stopped(k)
    else if h == 0x84 then k.(motion := k.motion || k.running)
    else if h == 0x85 then k.(stepping := k.stepping || k.running)
    else k.(motion := false)
  }

  /** jump_0400: validates and starts the program at the program counter. */
  method Start(s: SerialPort)
    requires s.c.Valid() && Fits(s.c.xram[..], s.c.page) && LabelsInRange(s.c.xram[..], s.c.page)
    modifies s`sendKey, s`sendStatus, s`r4, s.c`loaded, s.c`running, s.c`motion, s.c`stepping, s.c`outputs,
             s.c.xram, s.c.iram
    ensures s.c.Pc() == old(s.c.Pc())
    ensures s.c.loaded <==> old(Accepts(s.c.xram[..], s.c.page))
    ensures s.c.loaded ==> s.c.xram[..] == old(Prepared(s.c.xram[..], s.c.page))
    ensures s.c.Control() == old(AfterStart(s.c.Control(), Accepts(s.c.xram[..], s.c.page)))
    ensures QueueOf(s) == if s.c.loaded then Acknowledging(old(QueueOf(s))) else Reporting(old(QueueOf(s)), 0xF6)
  {
    hide Prepared, Accepts, IsEmptyProgram, LabelsInRange, Prepare.OutsideIndexing;
    ghost var visited := Prepare.Prepare(s.c);
    if !s.c.loaded {
      Report(s, 0xF6);
      return;
    }
    s.c.outputs := 0xFF;
    s.c.running, s.c.motion := true, true;
    Acknowledge(s);
  }

  /** jump_040D: stops the program and forgets what it waits for. */
  method Stop(s: SerialPort)
    requires s.c.Valid()
    modifies s`sendKey, s.c`running, s.c`motion, s.c`stepping, s.c`waitArrival, s.c`waitTime, s.c`waitInput
    ensures QueueOf(s) == Acknowledging(old(QueueOf(s)))
    ensures s.c.Control() == old(Stopped(s.c.Control()))
  {
    s.c.running, s.c.motion, s.c.stepping := false, false, false;
    s.c.waitArrival, s.c.waitTime, s.c.waitInput := false, false, false;
    Acknowledge(s);
  }

  /** Commands 0x82 to 0x88 that go ahead answer with their keyword, the others with 0xF6. */
  predicate Obeyed(h: byte, loaded: bool, running: bool, accepted: bool) {
    loaded && (h == 0x82 || h == 0x87 ==> accepted) && (h == 0x84 || h == 0x85 ==> running)
  }

  /** 0x03F6 and 0x0430: run from the start, or from a label. */
  method Launch(s: SerialPort, h: byte)
    requires s.c.Valid() && (h == 0x82 || h == 0x87)
    requires Fits(s.c.xram[..], s.c.page) && LabelsInRange(s.c.xram[..], s.c.page)
    modifies s`sendKey, s`sendStatus, s`r4, s.c`loaded, s.c`running, s.c`motion, s.c`stepping, s.c`waitArrival, s.c`waitTime,
             s.c`waitInput, s.c`outputs, s.c.xram, s.c.iram
    ensures QueueOf(s) == if old(Accepts(s.c.xram[..], s.c.page)) then Acknowledging(old(QueueOf(s)))
                          else Reporting(old(QueueOf(s)), 0xF6)
    ensures s.c.Pc() == if h == 0x82 then Base(s.c.page) else old(TableEntry(s.c.xram[..], s.c.page, s.c.iram[BUFFER]))
    ensures s.c.loaded == old(Accepts(s.c.xram[..], s.c.page))
    ensures s.c.loaded ==> s.c.xram[..] == old(Prepared(s.c.xram[..], s.c.page))
    ensures s.c.Control() == old(CommandControl(s.c.Control(), h, true, Accepts(s.c.xram[..], s.c.page)))
  {
    hide TableEntry, Accepts, LabelsInRange, Prepared, AfterStart;
    if h == 0x82 {
      s.c.waitArrival, s.c.waitTime, s.c.waitInput := false, false, false;
      s.c.iram[PC_LO] := 0;
      s.c.iram[PC_HI] := s.c.page + 1;
    } else {
      GotoLabel(s.c);
    }
    Start(s);
  }

  /** jump_0A34 with the label received. */
  method GotoLabel(c: Controller)
    requires c.Valid()
    modifies c.iram
    ensures c.Pc() == old(TableEntry(c.xram[..], c.page, c.iram[BUFFER]))
  {
    hide TableEntry;
    var m := c.iram[BUFFER];
    Interpreter.PcMoves(c.iram[..], TableEntry(c.xram[..], c.page, m));
    Interpreter.Goto(c, m);
  }

  /** jump_0415 to jump_0428: continue, single step and halt. */
  method Resume(s: SerialPort, h: byte)
    requires s.c.Valid() && 0x84 <= h <= 0x86
    modifies s`sendKey, s`sendStatus, s`r4, s.c`running, s.c`motion, s.c`stepping
    ensures QueueOf(s) == if h == 0x86 || old(s.c.running) then Acknowledging(old(QueueOf(s)))
                          else Reporting(old(QueueOf(s)), 0xF6)
    ensures s.c.Control() == old(CommandControl(s.c.Control(), h, true, true))
  {
    if h == 0x86 {
      s.c.motion := false;
    } else if !s.c.running {
      Report(s, 0xF6);
      return;
    } else if h == 0x84 {
      s.c.running, s.c.motion := true, true;
    } else {
      s.c.stepping := true;
    }
    Acknowledge(s);
  }

  /** MOV R4: the status a refusal would report. */
  method SetStatus(s: SerialPort, code: byte)
    modifies s`r4
    ensures s.r4 == code && QueueOf(s) == old(QueueOf(s)).(r4 := code)
  {
    s.r4 := code;
  }

  /** DJNZ R6: whether the chain goes on. */
  method CountR6(s: SerialPort) returns (more: bool)
    modifies s`r6
    ensures s.r6 == Dec(old(s.r6)) && (more <==> s.r6 != 0)
  {
    s.r6 := Dec(s.r6);
    more := s.r6 != 0;
  }

  /**
   jump_03F1: run from the start, stop, continue, single step, halt, run from a label, stop at a
   label, told apart by counting R6 down.
  */
  method ProgramCommand(s: SerialPort, ghost h: byte)
    requires s.c.Valid() && 0x82 <= h <= 0x88 && s.r6 == h - 0x81
    requires s.c.loaded ==> Fits(s.c.xram[..], s.c.page) && LabelsInRange(s.c.xram[..], s.c.page)
    modifies s`sendKey, s`sendStatus, s`r4, s`r6, s.c`loaded, s.c`running, s.c`motion, s.c`stepping, s.c`waitArrival,
             s.c`waitTime, s.c`waitInput, s.c`outputs, s.c.xram, s.c.iram
    ensures var obeyed := old(Obeyed(h, s.c.loaded, s.c.running, s.c.loaded && Accepts(s.c.xram[..], s.c.page)));
            var q := old(QueueOf(s)).(r4 := if h == 0x88 && old(s.c.loaded) then 0xF2 else 0xF6);
            QueueOf(s) == if obeyed then Acknowledging(q) else Reporting(q, 0xF6)
    ensures old(s.c.loaded) && h == 0x82 ==> s.c.Pc() == Base(s.c.page)
    ensures old(s.c.loaded) && h >= 0x87 ==> s.c.Pc() == old(TableEntry(s.c.xram[..], s.c.page, s.c.iram[BUFFER]))
    ensures !old(s.c.loaded) || 0x83 <= h <= 0x86 ==> s.c.Pc() == old(s.c.Pc()) && s.c.xram[..] == old(s.c.xram[..])
    ensures h == 0x88 ==> s.c.xram[..] == old(s.c.xram[..])
    ensures (h == 0x82 || h == 0x87) && old(s.c.loaded && Accepts(s.c.xram[..], s.c.page)) ==>
              s.c.xram[..] == old(Prepared(s.c.xram[..], s.c.page))
    ensures s.c.Control() == old(CommandControl(s.c.Control(), h, s.c.loaded, s.c.loaded && Accepts(s.c.xram[..], s.c.page)))
    ensures s.c.loaded == old(s.c.loaded && (h == 0x82 || h == 0x87 ==> Accepts(s.c.xram[..], s.c.page)))
  {
    FlagControl(s.c.Control(), h, false);
    ObeyedBy(h, s.c.running, false);
    hide TableEntry, Accepts, LabelsInRange, Acknowledging, Reporting, Pair, CommandControl, Prepared, Obeyed, QueueOf;
    SetStatus(s, 0xF6);
    if s.c.loaded {
      LoadedCommand(s, h);
    } else {
      Report(s, 0xF6);
    }
  }

  /** 0x03F6: the chain on R6, for a program that is loaded. */
  method LoadedCommand(s: SerialPort, ghost h: byte)
    requires s.c.Valid() && 0x82 <= h <= 0x88 && s.r6 == h - 0x81 && s.c.loaded
    requires Fits(s.c.xram[..], s.c.page) && LabelsInRange(s.c.xram[..], s.c.page)
    modifies s`sendKey, s`sendStatus, s`r4, s`r6, s.c`loaded, s.c`running, s.c`motion, s.c`stepping, s.c`waitArrival,
             s.c`waitTime, s.c`waitInput, s.c`outputs, s.c.xram, s.c.iram
    ensures var accepted := old(Accepts(s.c.xram[..], s.c.page));
            var launches := h == 0x82 || h == 0x87;
            && s.c.Control() == old(CommandControl(s.c.Control(), h, true, Accepts(s.c.xram[..], s.c.page)))
            && s.c.loaded == (launches ==> accepted)
            && (launches && accepted ==> s.c.xram[..] == old(Prepared(s.c.xram[..], s.c.page)))
            && (!launches ==> s.c.xram[..] == old(s.c.xram[..]))
            && QueueOf(s) == (if Obeyed(h, true, old(s.c.running), accepted)
                              then Acknowledging(if h == 0x88 then old(QueueOf(s)).(r4 := 0xF2) else old(QueueOf(s)))
                              else Reporting(old(QueueOf(s)), 0xF6))
    ensures s.c.Pc() == if h == 0x82 then Base(s.c.page)
                        else if h >= 0x87 then old(TableEntry(s.c.xram[..], s.c.page, s.c.iram[BUFFER]))
                        else old(s.c.Pc())
  {
    ghost var accepted := Accepts(s.c.xram[..], s.c.page);
    FlagControl(s.c.Control(), h, accepted);
    ObeyedBy(h, s.c.running, accepted);
    ObeyedBy(h, s.c.running, true);
    hide TableEntry, Accepts, LabelsInRange, Acknowledging, Reporting, Pair, CommandControl, Prepared, Obeyed, QueueOf;
    var more := CountR6(s);
    if !more {
      Launch(s, 0x82);
      return;
    }
    var done := FlagCommand(s, h);
    if !done {
      LabelCommand(s, h);
    }
  }

  lemma ObeyedBy(h: byte, running: bool, accepted: bool)
    requires 0x82 <= h <= 0x88
    ensures !Obeyed(h, false, running, accepted)
    ensures h == 0x82 || h == 0x87 ==> (Obeyed(h, true, running, accepted) <==> accepted)
    ensures 0x83 <= h <= 0x86 ==> (Obeyed(h, true, running, accepted) <==> (h == 0x84 || h == 0x85 ==> running))
    ensures h == 0x88 ==> Obeyed(h, true, running, accepted)
  {
  }

  /** The verdict matters to the commands that start the program only. */
  lemma FlagControl(k: Control, h: byte, accepted: bool)
    ensures CommandControl(k, h, false, accepted) == k
    ensures h == 0x83 || h == 0x88 ==> CommandControl(k, h, true, accepted) == Stopped(k)
    ensures 0x83 <= h <= 0x86 ==> CommandControl(k, h, true, accepted) == CommandControl(k, h, true, true)
  {
    hide AfterStart, Stopped;
  }

  /** jump_040B to jump_0428: the commands that only set flags, if R6 has come to one of them. */
  method FlagCommand(s: SerialPort, ghost h: byte) returns (done: bool)
    requires s.c.Valid() && s.c.loaded && 0x83 <= h <= 0x88 && s.r6 == h - 0x82
    modifies s`sendKey, s`sendStatus, s`r4, s`r6, s.c`running, s.c`motion, s.c`stepping, s.c`waitArrival, s.c`waitTime,
             s.c`waitInput
    ensures done <==> h <= 0x86
    ensures QueueOf(s) == if !done then old(QueueOf(s))
                          else if old(Obeyed(h, true, s.c.running, true)) then Acknowledging(old(QueueOf(s)))
                          else Reporting(old(QueueOf(s)), 0xF6)
    ensures s.c.Control() == if done then old(CommandControl(s.c.Control(), h, true, true)) else old(s.c.Control())
    ensures !done ==> s.r6 == h - 0x86
  {
    FlagControl(s.c.Control(), h, true);
    ObeyedBy(h, s.c.running, true);
    hide Acknowledging, Reporting, CommandControl, Stopped, Obeyed, QueueOf;
    done := true;
    var more := CountR6(s);
    if !more {
      Stop(s);
      return;
    }
    more := CountR6(s);
    if !more {
      Resume(s, 0x84);
      return;
    }
    done := StepCommand(s, h);
  }

  /** jump_041F and jump_0428. */
  method StepCommand(s: SerialPort, ghost h: byte) returns (done: bool)
    requires s.c.Valid() && s.c.loaded && 0x85 <= h <= 0x88 && s.r6 == h - 0x84
    modifies s`sendKey, s`sendStatus, s`r4, s`r6, s.c`running, s.c`motion, s.c`stepping
    ensures done <==> h <= 0x86
    ensures QueueOf(s) == if !done then old(QueueOf(s))
                          else if h == 0x86 || old(s.c.running) then Acknowledging(old(QueueOf(s)))
                          else Reporting(old(QueueOf(s)), 0xF6)
    ensures s.c.Control() == if done then old(CommandControl(s.c.Control(), h, true, true)) else old(s.c.Control())
    ensures !done ==> s.r6 == h - 0x86
  {
    hide Acknowledging, Reporting, CommandControl, QueueOf;
    done := true;
    var more := CountR6(s);
    if !more {
      Resume(s, 0x85);
      return;
    }
    more := CountR6(s);
    if !more {
      Resume(s, 0x86);
      return;
    }
    done := false;
  }

  /** jump_042E and jump_0437: run from a label, and stop at a label. */
  method LabelCommand(s: SerialPort, ghost h: byte)
    requires s.c.Valid() && s.c.loaded && 0x87 <= h <= 0x88 && s.r6 == h - 0x86
    requires Fits(s.c.xram[..], s.c.page) && LabelsInRange(s.c.xram[..], s.c.page)
    modifies s`sendKey, s`sendStatus, s`r4, s`r6, s.c`loaded, s.c`running, s.c`motion, s.c`stepping, s.c`waitArrival,
             s.c`waitTime, s.c`waitInput, s.c`outputs, s.c.xram, s.c.iram
    ensures var accepted := old(Accepts(s.c.xram[..], s.c.page));
            && QueueOf(s) == (if h == 0x88 then Acknowledging(old(QueueOf(s)).(r4 := 0xF2))
                              else if accepted then Acknowledging(old(QueueOf(s))) else Reporting(old(QueueOf(s)), 0xF6))
            && s.c.loaded == (h == 0x88 || accepted)
            && s.c.Control() == old(CommandControl(s.c.Control(), h, true, accepted))
            && (h == 0x87 && accepted ==> s.c.xram[..] == old(Prepared(s.c.xram[..], s.c.page)))
    ensures s.c.Pc() == old(TableEntry(s.c.xram[..], s.c.page, s.c.iram[BUFFER]))
    ensures h == 0x88 ==> s.c.xram[..] == old(s.c.xram[..])
  {
    FlagControl(s.c.Control(), h, Accepts(s.c.xram[..], s.c.page));
    hide TableEntry, Accepts, LabelsInRange, Acknowledging, Reporting, Pair, CommandControl, Stopped, Prepared, QueueOf;
    var more := CountR6(s);
    if !more {
      Launch(s, 0x87);
      return;
    }
    StopAtLabel(s);
  }

  /** jump_0437; R6 is zero after it, because no header above 0x88 is dispatched. */
  method StopAtLabel(s: SerialPort)
    requires s.c.Valid() && s.r6 == 1
    modifies s`sendKey, s`r4, s`r6, s.c`running, s.c`motion, s.c`stepping, s.c`waitArrival, s.c`waitTime, s.c`waitInput,
             s.c.iram
    ensures QueueOf(s) == Acknowledging(old(QueueOf(s)).(r4 := 0xF2))
    ensures s.c.Control() == old(Stopped(s.c.Control()))
    ensures s.c.Pc() == old(TableEntry(s.c.xram[..], s.c.page, s.c.iram[BUFFER]))
  {
    hide TableEntry, Acknowledging, Pair, Stopped, QueueOf;
    SetStatus(s, 0xF2);
    var more := CountR6(s);
    GotoLabel(s.c);
    Stop(s);
  }

  /** What a dispatched frame is answered with. */
  datatype Reply = Silence | Response(bytes: seq<byte>) | Keyword | StatusByte(code: byte) | Program

  /** The system commands 0x80 to 0x88. */
  function SystemReply(h: byte, ramOk: bool, loaded: bool, running: bool, accepted: bool): Reply {
    if h == 0x80 then (if loaded then Program else StatusByte(0xF4))
    else if h == 0x81 then (if !ramOk then StatusByte(0xF4) else if loaded && accepted then Keyword else StatusByte(0xF5))
    else if Obeyed(h, loaded, running, accepted) then Keyword
    else StatusByte(0xF6)
  }

  /** The frames 0x00 to 0x7F: only queries are answered at once. */
  function OperatorReply(h: byte, iram: seq<byte>, mem: Memory, p1: byte): Reply
    requires |iram| == 0x80
  {
    if 0x40 <= h < 0x60 then Response([h] + Values(h, iram, p1))
    else if 0x60 <= h < 0x70 && Bit1(h) && Bit0(h) then Response([h] + mem[0x20..0x23])
    else Silence
  }

  /** The reply to the frame with header h and terminator t. */
  function ReplyTo(h: byte, t: byte, iram: seq<byte>, mem: Memory, p1: byte,
                   ramOk: bool, loaded: bool, running: bool, accepted: bool): Reply
    requires |iram| == 0x80
  {
    if t != ETX then StatusByte(0xF3)
    else if h >= 0x80 then SystemReply(h, ramOk, loaded, running, accepted)
    else OperatorReply(h, iram, mem, p1)
  }

  /** Its bytes. */
  function ReplyBytes(r: Reply, h: byte, mem: Memory, p: SramPage): seq<byte> {
    match r
    case Silence => []
    case Response(bytes) => bytes + [ETX]
    case Keyword => [h, ETX]
    case StatusByte(code) => [code]
    case Program => ReadBackBytes(mem, p) + [ETX]
  }

  /** What else a frame does that lies outside the controller's memories: it switches the servo, or watches a move. */
  datatype Effect = Nothing | Servo(on: bool) | Watch(seconds: byte)

  /** jump_048C: servo on and off, the serial number, and holding the present position. */
  method ServoCommand(s: SerialPort, h: byte) returns (effect: Effect)
    requires s.c.Valid() && 0x60 <= h < 0x70
    modifies s`sendBuffer, s`r1, s`r3, s.c.iram
    ensures effect == if Bit1(h) then Nothing else Servo(Bit0(h))
    ensures if Bit1(h) && Bit0(h) then QueueOf(s) == Responding(old(QueueOf(s)), 4)
                                       && s.c.iram[RESPONSE..RESPONSE + 4] == [h] + s.c.xram[0x20..0x23]
            else QueueOf(s) == old(QueueOf(s))
    ensures !Bit1(h) ==> s.c.iram[..] == old(s.c.iram[..])
    ensures Bit1(h) && !Bit0(h) ==>
              s.c.iram[..] == old(s.c.iram[..SETPOINT] + s.c.iram[FEEDBACK..FEEDBACK + 6] + s.c.iram[SETPOINT + 6..])
  {
    effect := Nothing;
    if !Bit1(h) {
      effect := Servo(Bit0(h));
    } else if Bit0(h) {
      SerialNumber(s, h);
    } else {
      HoldPosition(s.c);
    }
  }

  /** 0x049B: the servo setpoints become the feedback. */
  method HoldPosition(c: Controller)
    requires c.Valid()
    modifies c.iram
    ensures c.iram[..] == old(c.iram[..SETPOINT] + c.iram[FEEDBACK..FEEDBACK + 6] + c.iram[SETPOINT + 6..])
  {
    forall i | 0 <= i < 6 {
      c.iram[SETPOINT + i] := c.iram[FEEDBACK + i];
    }
  }

  /** The queue q' is q with reply r armed, and r4 in R4; iram and mem are the memories it will be sent from. */
  predicate Arms(q: Queue, q': Queue, r: Reply, h: byte, r4: byte, iram: seq<byte>, mem: Memory, p: SramPage)
    requires |iram| == 0x80
  {
    match r
    case Silence => q' == q
    case Response(bytes) =>
      1 <= |bytes| <= 8 && bytes[0] != ETX && iram[RESPONSE..RESPONSE + |bytes|] == bytes && q' == Responding(q, |bytes|)
    case Keyword => q.r5 == h && q' == Acknowledging(q.(r4 := r4))
    case StatusByte(code) => q' == Reporting(q, code)
    case Program => q' == Streaming(q.(r4 := r4), mem, p)
  }

  /** The same for the replies that build no response. */
  predicate ArmsShort(q: Queue, q': Queue, r: Reply, h: byte, r4: byte, mem: Memory, p: SramPage) {
    match r
    case Keyword => q.r5 == h && q' == Acknowledging(q.(r4 := r4))
    case StatusByte(code) => q' == Reporting(q, code)
    case Program => q' == Streaming(q.(r4 := r4), mem, p)
    case _ => false
  }

  lemma ShortIsArmed(q: Queue, q': Queue, r: Reply, h: byte, r4: byte, iram: seq<byte>, mem: Memory, p: SramPage)
    requires |iram| == 0x80 && ArmsShort(q, q', r, h, r4, mem, p)
    ensures Arms(q, q', r, h, r4, iram, mem, p)
  {
  }

  lemma ArmedIsSent(q: Queue, q': Queue, r: Reply, h: byte, r4: byte, iram: seq<byte>, mem: Memory, p: SramPage)
    requires |iram| == 0x80 && Arms(q, q', r, h, r4, iram, mem, p) && Quiet(q)
    ensures Sound(q') && Pending(q', iram, mem) == ReplyBytes(r, h, mem, p)
  {
    hide Pending, ReadBackBytes, Streaming;
    match r {
      case Silence => NothingPending(q, iram, mem);
      case Response(bytes) =>
        assert iram[RESPONSE] == bytes[0];
        ResponseIff(q, |bytes|, iram, mem);
      case Keyword => KeywordIff(q.(r4 := r4), iram, mem);
      case StatusByte(code) => StatusIff(q, code, iram, mem);
      case Program => StreamIff(q.(r4 := r4), iram, mem, p);
    }
  }

  lemma NothingPending(q: Queue, iram: seq<byte>, mem: Memory)
    requires |iram| == 0x80 && Quiet(q)
    ensures Sound(q) && Pending(q, iram, mem) == []
  {
  }

  /** What a frame below 0x80 makes of internal RAM: setpoints, targets and time factors, or the feedback held. */
  ghost predicate OperatorCells(h: byte, iram: seq<byte>, iram': seq<byte>)
    requires |iram| == 0x80
  {
    && (h < 0x40 && !Bit4(h) ==> iram' == HostMoves.Placed(iram, SETPOINT, h))
    && (h >= 0x70 ==> iram' == HostMoves.Timed(iram, h))
    && (0x60 <= h < 0x70 && Bit1(h) && !Bit0(h) ==>
          iram' == iram[..SETPOINT] + iram[FEEDBACK..FEEDBACK + 6] + iram[SETPOINT + 6..])
    && (0x40 <= h < 0x60 ==>
          |iram'| == 0x80 && forall i :: 0 <= i < RESPONSE || RESPONSE + 8 <= i < 0x80 ==> iram'[i] == iram[i])
  }

  /** And of the interpreter's masks and the digital outputs. */
  predicate OperatorMasks(h: byte, operand: byte, k: Control, k': Control) {
    && k'.outputs == (if h < 0x40 && Bit4(h) then NewOutputs(h % 4, k.outputs, operand) else k.outputs)
    && k'.needMove == (if h >= 0x70 then k.needMove | HostMoves.HostMask(h) else k.needMove)
    && k'.renewed == (if h >= 0x70 then k.renewed | HostMoves.HostMask(h) else k.renewed)
    && k'.inPosition == (if h < 0x40 && !Bit4(h) && h % 8 == 7 then 0 else k.inPosition)
  }

  /** jump_0440: the frames that are no system command; dph is whatever the interrupted code has in DPH. */
  method OperatorFrame(s: SerialPort, h: byte, p1: byte, dph: byte) returns (effect: Effect)
    requires s.c.Valid() && h < 0x80
    modifies s`sendBuffer, s`r1, s`r3, s`awaiting, s`wantsKey,
             s.c`inPosition, s.c`needMove, s.c`renewed, s.c`outputs, s.c.iram
    ensures var reply := old(OperatorReply(h, s.c.iram[..], s.c.xram[..], p1));
            Arms(old(QueueOf(s)), QueueOf(s), reply, h, 0xF3, s.c.iram[..], s.c.xram[..], s.c.page)
    ensures OperatorCells(h, old(s.c.iram[..]), s.c.iram[..])
    ensures OperatorMasks(h, old(s.c.iram[BUFFER]), old(s.c.Control()), s.c.Control())
    ensures h < 0x40 && Bit4(h) ==> s.c.iram[0x47] == s.c.outputs
    ensures effect == if 0x60 <= h < 0x70 && !Bit1(h) then Servo(Bit0(h))
                      else if (h < 0x40 && !Bit4(h)) || h >= 0x70 then Watch(100) else Nothing
  {
    hide Values, HostMoves.Placed, HostMoves.Timed, HostMoves.HostMask, NewOutputs, Bit0, Bit1, Bit4;
    effect := Nothing;
    if h < 0x40 {
      if Bit4(h) {
        Interpreter.SetOutputs(s.c, h % 4, s.c.iram[BUFFER], dph);
        s.c.iram[0x47] := s.c.outputs;
      } else {
        var seconds := HostMoves.SetpointCommand(s, h);
        effect := Watch(seconds);
      }
    } else if h < 0x60 {
      var n := Query(s, h, p1);
      assert |s.c.iram[RESPONSE..RESPONSE + n]| == n as nat;
    } else if h < 0x70 {
      effect := ServoCommand(s, h);
    } else {
      var seconds := HostMoves.TimedCommand(s, h);
      effect := Watch(seconds);
    }
  }

  /** 0x03B6: the system commands; each sets R4 to what it would report. */
  method SystemFrame(s: SerialPort, h: byte) returns (ghost r4: byte)
    requires s.c.Valid() && 0x80 <= h <= 0x88 && s.r5 == h
    requires h > 0x80 && s.c.loaded ==> Fits(s.c.xram[..], s.c.page) && LabelsInRange(s.c.xram[..], s.c.page)
    modifies s`sendKey, s`sendStatus, s`sendStream, s`r1, s`r3, s`r4, s`r6, s`ptrLo, s`ptrHi, s.c`loaded, s.c`running,
             s.c`motion, s.c`stepping, s.c`waitArrival, s.c`waitTime, s.c`waitInput, s.c`outputs, s.c.xram, s.c.iram
    ensures var reply := old(SystemReply(h, s.c.ramOk, s.c.loaded, s.c.running,
                                         h > 0x80 && s.c.loaded && Accepts(s.c.xram[..], s.c.page)));
            ArmsShort(old(QueueOf(s)), QueueOf(s), reply, h, r4, s.c.xram[..], s.c.page)
    ensures h == 0x80 ==> s.c.xram[..] == old(s.c.xram[..]) && s.c.iram[..] == old(s.c.iram[..]) && s.c.loaded == old(s.c.loaded)
    ensures h == BLOCK ==>
              && (s.c.loaded <==> old(s.c.ramOk && s.c.loaded && Accepts(s.c.xram[..], s.c.page)))
              && (s.c.loaded ==> s.c.xram[..] == old(Prepared(s.c.xram[..], s.c.page)))
              && (old(s.c.ramOk) && !s.c.loaded ==> IsEmptyProgram(s.c.xram[..], s.c.page))
  {
    hide ReadBackBytes, Accepts, LabelsInRange, TableEntry, Prepared, IsEmptyProgram, Acknowledging, Streaming, Reporting, Obeyed;
    ghost var q := QueueOf(s);
    assert q.r5 == h;
    hide ArmsShort, SystemReply, QueueOf;
    ghost var ramOk, loaded, running := s.c.ramOk, s.c.loaded, s.c.running;
    ghost var accepted := h > 0x80 && loaded && Accepts(s.c.xram[..], s.c.page);
    s.r6 := h - 0x80;
    if s.r6 == 0 {
      r4 := 0xF4;
      ReadBack(s);
      ReadBackArms(q, QueueOf(s), ramOk, loaded, running, accepted, s.c.xram[..], s.c.page);
    } else {
      r4 := StoredFrame(s, h);
    }
  }

  /** jump_03E1: the commands that validate or run the stored program. */
  method StoredFrame(s: SerialPort, ghost h: byte) returns (ghost r4: byte)
    requires s.c.Valid() && 0x81 <= h <= 0x88 && s.r5 == h && s.r6 == h - 0x80
    requires s.c.loaded ==> Fits(s.c.xram[..], s.c.page) && LabelsInRange(s.c.xram[..], s.c.page)
    modifies s`sendKey, s`sendStatus, s`r4, s`r6, s.c`loaded, s.c`running, s.c`motion, s.c`stepping, s.c`waitArrival,
             s.c`waitTime, s.c`waitInput, s.c`outputs, s.c.xram, s.c.iram
    ensures var reply := old(SystemReply(h, s.c.ramOk, s.c.loaded, s.c.running, s.c.loaded && Accepts(s.c.xram[..], s.c.page)));
            ArmsShort(old(QueueOf(s)), QueueOf(s), reply, h, r4, s.c.xram[..], s.c.page)
    ensures h == BLOCK ==>
              && (s.c.loaded <==> old(s.c.ramOk && s.c.loaded && Accepts(s.c.xram[..], s.c.page)))
              && (s.c.loaded ==> s.c.xram[..] == old(Prepared(s.c.xram[..], s.c.page)))
              && (old(s.c.ramOk) && !s.c.loaded ==> IsEmptyProgram(s.c.xram[..], s.c.page))
  {
    hide Fits, Pair, Base, Size, Accepts, LabelsInRange, TableEntry, Prepared, IsEmptyProgram;
    hide Acknowledging, Reporting, Obeyed, CommandControl;
    ghost var q := QueueOf(s);
    assert q.r5 == h;
    hide ArmsShort, SystemReply, QueueOf;
    ghost var ramOk, loaded, running := s.c.ramOk, s.c.loaded, s.c.running;
    ghost var accepted := loaded && Accepts(s.c.xram[..], s.c.page);
    var more := CountR6(s);
    assert QueueOf(s) == q && (more <==> h != 0x81);
    if !more {
      r4 := 0xF5;
      EndUpload(s);
      UploadArms(q, QueueOf(s), ramOk, loaded, running, accepted, s.c.xram[..], s.c.page);
    } else {
      r4 := if h == 0x88 then 0xF2 else 0xF6;
      ProgramCommand(s, h);
      CommandArms(q, QueueOf(s), h, ramOk, loaded, running, accepted, s.c.xram[..], s.c.page);
    }
  }

  lemma ReadBackArms(q: Queue, q': Queue, ramOk: bool, loaded: bool, running: bool, accepted: bool, mem: Memory, p: SramPage)
    requires q' == if loaded then Streaming(q.(r4 := 0xF4), mem, p) else Reporting(q.(r4 := 0xF4), 0xF4)
    ensures ArmsShort(q, q', SystemReply(0x80, ramOk, loaded, running, accepted), 0x80, 0xF4, mem, p)
  {
    hide Streaming;
  }

  lemma UploadArms(q: Queue, q': Queue, ramOk: bool, loaded: bool, running: bool, accepted: bool, mem: Memory, p: SramPage)
    requires q.r5 == 0x81
    requires q' == if ramOk && loaded && accepted then Acknowledging(q.(r4 := 0xF5))
                   else Reporting(q, if ramOk then 0xF5 else 0xF4)
    ensures ArmsShort(q, q', SystemReply(0x81, ramOk, loaded, running, accepted), 0x81, 0xF5, mem, p)
  {
  }

  lemma CommandArms(q: Queue, q': Queue, h: byte, ramOk: bool, loaded: bool, running: bool, accepted: bool,
                    mem: Memory, p: SramPage)
    requires 0x82 <= h <= 0x88 && q.r5 == h
    requires var r4 := if h == 0x88 && loaded then 0xF2 else 0xF6;
             q' == if Obeyed(h, loaded, running, accepted) then Acknowledging(q.(r4 := r4)) else Reporting(q.(r4 := r4), 0xF6)
    ensures ArmsShort(q, q', SystemReply(h, ramOk, loaded, running, accepted), h, if h == 0x88 then 0xF2 else 0xF6, mem, p)
  {
  }

  /**
   jump_03A9: the frame with header h is complete and t has arrived. Its reply is armed whatever is
   still to be sent; with nothing left to send, what goes out next is exactly that reply.
  */
  method DispatchFrame(s: SerialPort, h: byte, t: byte, p1: byte, dph: byte) returns (effect: Effect, ghost r4: byte)
    requires s.c.Valid() && h <= 0x88
    requires t == ETX && h > 0x80 && s.c.loaded ==> Fits(s.c.xram[..], s.c.page) && LabelsInRange(s.c.xram[..], s.c.page)
    modifies s`sendKey, s`sendStatus, s`sendBuffer, s`sendStream, s`r1, s`r3, s`r4, s`r5, s`r6, s`ptrLo, s`ptrHi,
             s`awaiting, s`wantsKey,
             s.c, s.c.xram, s.c.iram
    ensures var reply := old(ReplyTo(h, t, s.c.iram[..], s.c.xram[..], p1, s.c.ramOk, s.c.loaded, s.c.running,
                                     t == ETX && h > 0x80 && s.c.loaded && Accepts(s.c.xram[..], s.c.page)));
            && Arms(if t == ETX then old(QueueOf(s)).(r4 := 0xF3, r5 := h) else old(QueueOf(s)), QueueOf(s),
                    reply, h, r4, s.c.iram[..], s.c.xram[..], s.c.page)
            && (old(Quiet(QueueOf(s))) ==>
                  Sound(QueueOf(s)) && PendingOf(s) == ReplyBytes(reply, h, s.c.xram[..], s.c.page))
    ensures t != ETX || h <= 0x80 ==> s.c.xram[..] == old(s.c.xram[..]) && s.c.loaded == old(s.c.loaded)
    ensures t == ETX && h < 0x80 ==>
              && OperatorCells(h, old(s.c.iram[..]), s.c.iram[..])
              && OperatorMasks(h, old(s.c.iram[BUFFER]), old(s.c.Control()), s.c.Control())
    ensures t == ETX && h < 0x80 ==>
              effect == if 0x60 <= h < 0x70 && !Bit1(h) then Servo(Bit0(h))
                        else if (h < 0x40 && !Bit4(h)) || h >= 0x70 then Watch(100) else Nothing
    ensures t == ETX && h == BLOCK ==>
              && (s.c.loaded <==> old(s.c.ramOk && s.c.loaded && Accepts(s.c.xram[..], s.c.page)))
              && (s.c.loaded ==> s.c.xram[..] == old(Prepared(s.c.xram[..], s.c.page)))
              && (old(s.c.ramOk) && !s.c.loaded ==> IsEmptyProgram(s.c.xram[..], s.c.page))
  {
    hide ReadBackBytes, Accepts, LabelsInRange, Pending, Sound, OperatorReply, SystemReply, ReplyBytes, Arms, ArmsShort;
    hide Pair, Prepared, IsEmptyProgram, OperatorCells, OperatorMasks;
    effect := Nothing;
    r4 := 0xF3;
    ghost var q := QueueOf(s);
    ghost var reply := ReplyTo(h, t, s.c.iram[..], s.c.xram[..], p1, s.c.ramOk, s.c.loaded, s.c.running,
                               t == ETX && h > 0x80 && s.c.loaded && Accepts(s.c.xram[..], s.c.page));
    if t != ETX {
      Reject(s);
      RefusalIsSent(q, QueueOf(s), h, s.c.iram[..], s.c.xram[..], s.c.page);
    } else {
      Accept(s, h);
      q := q.(r4 := 0xF3, r5 := h);
      if h < 0x80 {
        effect := OperatorFrame(s, h, p1, dph);
      } else {
        r4 := SystemFrame(s, h);
        ShortIsArmed(q, QueueOf(s), reply, h, r4, s.c.iram[..], s.c.xram[..], s.c.page);
      }
    }
    if Quiet(q) {
      ArmedIsSent(q, QueueOf(s), reply, h, r4, s.c.iram[..], s.c.xram[..], s.c.page);
    }
  }

  /** jump_03C1 with 0xF3: the terminator was not ETX. */
  method Reject(s: SerialPort)
    modifies s`sendKey, s`sendStatus, s`r4
    ensures QueueOf(s) == Reporting(old(QueueOf(s)), 0xF3)
  {
    Report(s, 0xF3);
  }

  lemma RefusalIsSent(q: Queue, q': Queue, h: byte, iram: seq<byte>, mem: Memory, p: SramPage)
    requires |iram| == 0x80 && q' == Reporting(q, 0xF3)
    ensures Arms(q, q', StatusByte(0xF3), h, 0xF3, iram, mem, p)
  {
  }

  /** 0x03B1: R4 and R5 for the replies to come. */
  method Accept(s: SerialPort, h: byte)
    modifies s`r4, s`r5
    ensures s.r5 == h && QueueOf(s) == old(QueueOf(s)).(r4 := 0xF3, r5 := h)
  {
    s.r4, s.r5 := 0xF3, h;
  }
}
