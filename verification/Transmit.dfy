/** The transmit helper (0x0542) and the token that keeps SBUF from being overwritten. */
module Transmit {
  import opened Bytes
  import opened ProgramLayout
  import opened ControllerState
  import opened ReceiveSpec
  import opened Serial

  /** n bytes of external memory from a on. */
  function Stream(mem: Memory, a: word, n: nat): (r: seq<byte>)
    ensures |r| == n
    decreases n
  {
    if n == 0 then [] else [mem[a]] + Stream(mem, IncWord(a), n - 1)
  }

  /** How many bytes the nested counters R1 and R3 let through. */
  function StreamLength(r1: byte, r3: byte): nat { Turns(r1) + 256 * (Turns(r3) - 1) }

  /** What the transmit helper works on, as one value; iram and mem are the memories' contents. */
  datatype Queue = Queue(
    buffer: bool, last: bool, stream: bool, key: bool, etx: bool, status: bool,
    r1: byte, r3: byte, r4: byte, r5: byte, ptr: word)

  /** The response buffer lies in internal RAM, and does not compete with a stream for R1 and R3. */
  predicate Sound(q: Queue) {
    && (q.last ==> q.buffer)
    && (q.buffer ==> !q.stream)
    && (q.buffer && !q.last ==> q.r1 + Turns(q.r3) <= 0x80)
  }

  /** What is left of the response buffer with its ETX, or of the stored program. */
  function Data(q: Queue, iram: seq<byte>, mem: Memory): seq<byte>
    requires Sound(q) && |iram| == 0x80
  {
    if q.buffer then (if q.last then [ETX] else iram[q.r1..q.r1 + Turns(q.r3)] + [ETX])
    else if q.stream then Stream(mem, q.ptr, StreamLength(q.r1, q.r3))
    else []
  }

  /** Everything that is still to be sent, in order; keyword, stream and a stray ETX share one ETX. */
  function Pending(q: Queue, iram: seq<byte>, mem: Memory): seq<byte>
    requires Sound(q) && |iram| == 0x80
  {
    Data(q, iram, mem) + Trailer(q)
  }

  /** What goes out after the data. */
  function Trailer(q: Queue): seq<byte> {
    (if q.key then [q.r5] else []) + (if q.key || q.etx || q.stream then [ETX] else []) + (if q.status then [q.r4] else [])
  }

  /** A stream's bytes are those of successive addresses, and the counters let through one byte for each turn of the two loops. */
  lemma {:induction false} StreamInFigures(mem: Memory, a: word, n: nat, i: nat)
    requires i < n
    ensures Stream(mem, a, n)[i] == mem[(a + i) % 0x1_0000]
    decreases n
  {
    if i > 0 {
      StreamInFigures(mem, IncWord(a), n - 1, i - 1);
      assert (IncWord(a) + (i - 1)) % 0x1_0000 == (a + i) % 0x1_0000;
    }
  }

  /**
   What is sent, and in which order: the response and its ETX, or the stored program; then the keyword;
   then the ETX that it shares with the program; and the status byte last.
  */
  lemma OrderInFigures(q: Queue, iram: seq<byte>, mem: Memory)
    requires Sound(q) && |iram| == 0x80
    ensures var length: int := (if q.r1 == 0 then 256 else q.r1) as int + 256 * ((if q.r3 == 0 then 256 else q.r3) as int - 1);
            Pending(q, iram, mem) ==
            (if q.buffer && q.last then [0x03]
             else if q.buffer then iram[q.r1..q.r1 as int + (if q.r3 == 0 then 256 else q.r3)] + [0x03]
             else if q.stream then Stream(mem, q.ptr, length) else [])
            + ((if q.key then [q.r5] else []) + (if q.key || q.etx || q.stream then [0x03] else [])
               + (if q.status then [q.r4] else []))
  {
    hide Stream;
  }

  /** The queue after one byte has been taken from it. */
  function Taken(q: Queue): Queue {
    if q.buffer then
      if q.last then q.(buffer := false, last := false)
      else q.(r1 := Inc(q.r1), r3 := Dec(q.r3), last := Dec(q.r3) == 0)
    else if q.stream then
      var q := q.(ptr := IncWord(q.ptr), r1 := Dec(q.r1));
      if q.r1 != 0 then q
      else
        var q := q.(r3 := Dec(q.r3));
        if q.r3 != 0 then q else q.(stream := false, etx := true)
    else if q.key then q.(key := false, etx := true)
    else if q.etx then q.(etx := false)
    else q.(status := false)
  }

  /** Taking a byte takes the first pending one, and leaves the others in their order. */
  lemma TakenIsFirst(q: Queue, iram: seq<byte>, mem: Memory)
    requires Sound(q) && |iram| == 0x80 && Pending(q, iram, mem) != []
    ensures Sound(Taken(q)) && Pending(Taken(q), iram, mem) == Pending(q, iram, mem)[1..]
  {
    if q.buffer || q.stream {
      if q.buffer {
        BufferStep(q, iram, mem);
      } else {
        StreamStep(q, iram, mem);
      }
      hide *;
      HeadFirst(q, iram, mem);
    } else {
      hide Stream, StreamLength;
    }
  }

  lemma HeadFirst(q: Queue, iram: seq<byte>, mem: Memory)
    requires Sound(q) && |iram| == 0x80 && Sound(Taken(q)) && (q.buffer && !q.last ==> q.r1 < 0x80)
    requires Data(q, iram, mem) == [Head(q, iram, mem)] + Data(Taken(q), iram, mem) && Trailer(q) == Trailer(Taken(q))
    ensures Pending(Taken(q), iram, mem) == Pending(q, iram, mem)[1..]
  {
    hide Data, Trailer, Head, Sound, Taken;
    var d, r := Data(Taken(q), iram, mem), Trailer(q);
    assert ([Head(q, iram, mem)] + d + r)[1..] == d + r;
  }

  lemma BufferStep(q: Queue, iram: seq<byte>, mem: Memory)
    requires Sound(q) && |iram| == 0x80 && q.buffer
    ensures Sound(Taken(q)) && Data(q, iram, mem) == [Head(q, iram, mem)] + Data(Taken(q), iram, mem)
    ensures Trailer(q) == Trailer(Taken(q))
  {
    if !q.last {
      hide Turns, Dec, Inc, Trailer;
      TakenBuffer(q);
      TurnsStep(q.r3);
      SplitFirst(iram, q.r1, Turns(q.r3));
    } else {
      hide Trailer;
      TakenBuffer(q);
    }
  }

  lemma TakenBuffer(q: Queue)
    requires q.buffer
    ensures Taken(q) == if q.last then q.(buffer := false, last := false)
                        else q.(r1 := Inc(q.r1), r3 := Dec(q.r3), last := Dec(q.r3) == 0)
    ensures q.r1 < 0x80 ==> Inc(q.r1) == q.r1 + 1
    ensures Trailer(Taken(q)) == Trailer(q)
  {
  }

  lemma SplitFirst(iram: seq<byte>, at: nat, n: nat)
    requires 1 <= n && at + n <= |iram|
    ensures iram[at..at + n] == [iram[at]] + iram[at + 1..at + 1 + (n - 1)]
  {
  }

  /** DJNZ has one turn fewer left, unless it was the last. */
  lemma TurnsStep(x: byte)
    ensures Turns(x) == if Dec(x) == 0 then 1 else Turns(Dec(x)) + 1
  {
  }

  lemma StreamStep(q: Queue, iram: seq<byte>, mem: Memory)
    requires Sound(q) && |iram| == 0x80 && q.stream
    ensures Sound(Taken(q)) && Data(q, iram, mem) == [Head(q, iram, mem)] + Data(Taken(q), iram, mem)
    ensures Trailer(q) == Trailer(Taken(q))
  {
    hide StreamLength;
    StreamCounts(q.r1, q.r3);
  }

  ghost function QueueOf(s: SerialPort): Queue
    reads s`sendBuffer, s`lastSent, s`sendStream, s`sendKey, s`sendEtx, s`sendStatus
    reads s`r1, s`r3, s`r4, s`r5, s`ptrHi, s`ptrLo
  {
    Queue(s.sendBuffer, s.lastSent, s.sendStream, s.sendKey, s.sendEtx, s.sendStatus,
          s.r1, s.r3, s.r4, s.r5, Pair(s.ptrHi, s.ptrLo))
  }

  /** What s is still going to send. */
  ghost function PendingOf(s: SerialPort): seq<byte>
    requires s.c.Valid() && Sound(QueueOf(s))
    reads s, s.c, s.c.iram, s.c.xram
  {
    Pending(QueueOf(s), s.c.iram[..], s.c.xram[..])
  }

  /** Exactly one of: the transmitter is idle, a byte is on the line, or its completion is to be served. */
  predicate LineOk(s: SerialPort)
    reads s`token, s`busy, s`ti
  {
    && (s.token ==> !s.busy && !s.ti)
    && (s.busy ==> !s.ti)
    && (s.token || s.busy || s.ti)
  }

  /** MOV SBUF, only ever while nothing is on the line. */
  method Emit(s: SerialPort, b: byte)
    requires !s.busy
    modifies s`busy, s`wire
    ensures s.busy && s.wire == old(s.wire) + [b]
  {
    s.busy := true;
    s.wire := s.wire + [b];
  }

  /** One call sends the next pending byte; with nothing pending it hands back the token. */
  method Transmit(s: SerialPort)
    requires s.c.Valid() && Sound(QueueOf(s)) && !s.busy && !s.ti
    modifies s`token, s`busy, s`wire, s`sendBuffer, s`lastSent, s`sendStream, s`sendKey, s`sendEtx, s`sendStatus,
             s`r1, s`r3, s`ptrLo, s`ptrHi
    ensures Sound(QueueOf(s)) && LineOk(s)
    ensures s.token <==> old(PendingOf(s)) == []
    ensures old(PendingOf(s)) == [] ==> s.wire == old(s.wire) && PendingOf(s) == []
    ensures old(PendingOf(s)) != [] ==> s.wire + PendingOf(s) == old(s.wire) + old(PendingOf(s)) && |s.wire| == |old(s.wire)| + 1
    ensures old(s.wire) <= s.wire
  {
    hide Pending, Sound, Taken;
    ghost var q, iram, mem := QueueOf(s), s.c.iram[..], s.c.xram[..];
    PendingHead(q, iram, mem);
    if Pending(q, iram, mem) != [] {
      TakenIsFirst(q, iram, mem);
    }
    var b := Serve(s);
    if !s.token {
      Emit(s, b);
    }
  }

  /** What goes first, and when there is nothing. */
  function Head(q: Queue, iram: seq<byte>, mem: Memory): byte
    requires |iram| == 0x80 && (q.buffer && !q.last ==> q.r1 < 0x80)
  {
    if q.buffer then (if q.last then ETX else iram[q.r1])
    else if q.stream then mem[q.ptr]
    else if q.key then q.r5
    else if q.etx then ETX
    else q.r4
  }

  predicate IsEmpty(q: Queue) { !(q.buffer || q.stream || q.key || q.etx || q.status) }

  lemma PendingHead(q: Queue, iram: seq<byte>, mem: Memory)
    requires Sound(q) && |iram| == 0x80
    ensures q.buffer && !q.last ==> q.r1 < 0x80
    ensures Pending(q, iram, mem) == [] <==> IsEmpty(q)
    ensures !IsEmpty(q) ==> Pending(q, iram, mem)[0] == Head(q, iram, mem)
  {
    StreamCounts(q.r1, q.r3);
  }

  /** 0x0577: one byte further in the stored program. */
  method AdvanceStream(s: SerialPort)
    requires s.sendStream && !s.sendBuffer
    modifies s`sendStream, s`sendEtx, s`r1, s`r3, s`ptrLo, s`ptrHi
    ensures QueueOf(s) == Taken(old(QueueOf(s)))
  {
    hide IncWord;
    s.ptrHi, s.ptrLo := IncPair(s.ptrHi, s.ptrLo);
    s.r1 := Dec(s.r1);
    if s.r1 != 0 {
      return;
    }
    s.r3 := Dec(s.r3);
    if s.r3 != 0 {
      return;
    }
    s.sendStream := false;
    s.sendEtx := true;
  }

  /** The helper's own branches: the byte it writes to SBUF, or the token when it writes none. */
  method Serve(s: SerialPort) returns (b: byte)
    requires s.c.Valid() && (s.sendBuffer && !s.lastSent ==> s.r1 < 0x80)
    modifies s`token, s`sendBuffer, s`lastSent, s`sendStream, s`sendKey, s`sendEtx, s`sendStatus,
             s`r1, s`r3, s`ptrLo, s`ptrHi
    ensures s.token <==> old(IsEmpty(QueueOf(s)))
    ensures QueueOf(s) == if s.token then old(QueueOf(s)) else Taken(old(QueueOf(s)))
    ensures !s.token ==> b == old(Head(QueueOf(s), s.c.iram[..], s.c.xram[..]))
  {
    b := ETX;
    s.token := false;
    if s.sendBuffer {
      if s.lastSent {
        s.lastSent := false;
        s.sendBuffer := false;
        return;
      }
      b := s.c.iram[s.r1];
      s.r1 := Inc(s.r1);
      s.r3 := Dec(s.r3);
      if s.r3 == 0 {
        s.lastSent := true;
      }
    } else if s.sendStream {
      b := s.c.xram[Pair(s.ptrHi, s.ptrLo)];
      AdvanceStream(s);
    } else if s.sendKey {
      s.sendKey := false;
      b := s.r5;
      s.sendEtx := true;
    } else if s.sendEtx {
      s.sendEtx := false;
    } else if s.sendStatus {
      s.sendStatus := false;
      b := s.r4;
    } else {
      s.token := true;
    }
  }

  lemma StreamCounts(r1: byte, r3: byte)
    ensures StreamLength(r1, r3) > 0
    ensures Dec(r1) != 0 ==> StreamLength(Dec(r1), r3) == StreamLength(r1, r3) - 1
    ensures Dec(r1) == 0 && Dec(r3) != 0 ==> StreamLength(0, Dec(r3)) == StreamLength(r1, r3) - 1
    ensures Dec(r1) == 0 && Dec(r3) == 0 ==> StreamLength(r1, r3) == 1
  {
  }

  /** The shift register has sent its byte. */
  method ByteSent(s: SerialPort)
    requires LineOk(s) && s.busy
    modifies s`busy, s`ti
    ensures LineOk(s) && s.ti && !s.token
  {
    s.busy := false;
    s.ti := true;
  }

  /** jump_0525: the end of the serial interrupt serves a finished byte. */
  method ServeInterrupt(s: SerialPort)
    requires s.c.Valid() && Sound(QueueOf(s)) && LineOk(s)
    modifies s`token, s`busy, s`wire, s`sendBuffer, s`lastSent, s`sendStream, s`sendKey, s`sendEtx, s`sendStatus,
             s`r1, s`r3, s`ptrLo, s`ptrHi, s`ti
    ensures Sound(QueueOf(s)) && LineOk(s)
    ensures s.wire + PendingOf(s) == old(s.wire) + old(PendingOf(s)) && old(s.wire) <= s.wire
    ensures old(s.ti) ==> (s.token <==> old(PendingOf(s)) == [])
    ensures old(s.ti) && old(PendingOf(s)) != [] ==> |s.wire| == |old(s.wire)| + 1
  {
    hide Pending, Sound;
    if s.ti {
      s.ti := false;
      Transmit(s);
    }
  }

  /** jump_0780: the main loop serves an idle transmitter. */
  method ServeIdle(s: SerialPort)
    requires s.c.Valid() && Sound(QueueOf(s)) && LineOk(s)
    modifies s`token, s`busy, s`wire, s`sendBuffer, s`lastSent, s`sendStream, s`sendKey, s`sendEtx, s`sendStatus,
             s`r1, s`r3, s`ptrLo, s`ptrHi
    ensures Sound(QueueOf(s)) && LineOk(s)
    ensures s.wire + PendingOf(s) == old(s.wire) + old(PendingOf(s)) && old(s.wire) <= s.wire
    ensures old(s.token) && old(PendingOf(s)) != [] ==> !s.token && |s.wire| == |old(s.wire)| + 1
  {
    hide Pending, Sound;
    if s.token {
      Transmit(s);
    }
  }

  /** What can happen to the transmitter: its byte has gone out, the serial interrupt comes, the main loop comes by. */
  datatype Call = Sent | Interrupt | MainLoop

  /**
   In whatever order these happen, what has been written to SBUF is what was pending, in its order, and
   never while a byte was on the line (Emit).
  */
  method Interleave(s: SerialPort, calls: seq<Call>)
    requires s.c.Valid() && Sound(QueueOf(s)) && LineOk(s)
    modifies s`token, s`busy, s`wire, s`sendBuffer, s`lastSent, s`sendStream, s`sendKey, s`sendEtx, s`sendStatus,
             s`r1, s`r3, s`ptrLo, s`ptrHi, s`ti
    ensures Sound(QueueOf(s)) && LineOk(s) && old(s.wire) <= s.wire
    ensures s.wire + PendingOf(s) == old(s.wire) + old(PendingOf(s))
    ensures IsEmpty(QueueOf(s)) ==> s.wire == old(s.wire) + old(PendingOf(s))
  {
    hide Pending, Sound;
    ghost var all := s.wire + PendingOf(s);
    var i := 0;
    while i < |calls|
      invariant i <= |calls| && Sound(QueueOf(s)) && LineOk(s) && old(s.wire) <= s.wire && s.wire + PendingOf(s) == all
    {
      match calls[i] {
        case Sent =>
          if s.busy {
            ByteSent(s);
          }
        case Interrupt =>
          ServeInterrupt(s);
        case MainLoop =>
          ServeIdle(s);
      }
      i := i + 1;
    }
    PendingHead(QueueOf(s), s.c.iram[..], s.c.xram[..]);
  }

  /** When it is called until the transmitter is idle, all that was pending is out. */
  method Drain(s: SerialPort)
    requires s.c.Valid() && Sound(QueueOf(s)) && LineOk(s) && s.token
    modifies s`token, s`busy, s`wire, s`sendBuffer, s`lastSent, s`sendStream, s`sendKey, s`sendEtx, s`sendStatus,
             s`r1, s`r3, s`ptrLo, s`ptrHi, s`ti
    ensures s.wire == old(s.wire) + old(PendingOf(s))
    ensures s.token && LineOk(s) && IsEmpty(QueueOf(s)) && !s.lastSent && Sound(QueueOf(s))
  {
    hide Pending, Sound;
    ghost var all := s.wire + PendingOf(s);
    ServeIdle(s);
    while !s.token
      invariant Sound(QueueOf(s)) && LineOk(s) && s.wire + PendingOf(s) == all
      invariant s.token ==> PendingOf(s) == []
      decreases |PendingOf(s)|, !s.token
    {
      if s.busy {
        ByteSent(s);
      }
      ServeInterrupt(s);
    }
    PendingHead(QueueOf(s), s.c.iram[..], s.c.xram[..]);
    LastIsBuffer(QueueOf(s));
  }

  lemma LastIsBuffer(q: Queue)
    requires Sound(q) && !q.buffer
    ensures !q.last
  {
  }
}
