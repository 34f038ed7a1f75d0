/** The simulator's teachbox: one key at a time in a matrix strobed through Port B. */
module Teachbox {
  import opened Bytes
  import opened Keypad

  class Box {
    var curStrobe: byte
    var pressRow: int
    var pressGroup: int
    var p1: byte               // the P1 latch

    constructor (p1: byte)
      ensures Released() && this.p1 == p1
    {
      curStrobe, pressRow, pressGroup := 0, -1, 0;
      this.p1 := p1;
    }

    predicate Released()
      reads this
    {
      pressGroup == 0
    }

    function StrobedRow(): nat
      reads this
    {
      curStrobe / 16 % 8
    }

    /** A read of P1: the three column lines come from the pressed key, the rest from the latch. */
    function Read(): byte
      reads this
    {
      Column(StrobedRow())
    }

    /** P1 as it reads with a given row strobed. */
    function Column(row: nat): byte
      reads this
    {
      var v: byte := p1 % 32;
      if 1 <= pressGroup <= 3 && pressRow == row
      then v + (if pressGroup == 1 then 32 else if pressGroup == 2 then 64 else 128)
      else v
    }

    /** What a scan sees: P1 with each row strobed. */
    function Lines(): (lines: seq<byte>)
      reads this
      ensures |lines| == 8
    {
      [Column(0), Column(1), Column(2), Column(3), Column(4), Column(5), Column(6), Column(7)]
    }

    /** A write to Port B. */
    method Write(val: byte)
      modifies this`curStrobe
      ensures Lines() == old(Lines()) && Read() == Lines()[val / 16 % 8]
    {
      curStrobe := val;
    }

    /** set hardware teachbox row group. */
    method Press(row: nat, group: nat)
      modifies this`pressRow, this`pressGroup
      ensures pressRow == row % 8 && pressGroup == group % 16
    {
      pressRow, pressGroup := row % 8, group % 16;
    }

    method Release()
      modifies this`pressRow, this`pressGroup
      ensures Released()
    {
      pressRow, pressGroup := -1, 0;
    }

    /** The scanner reads back exactly the key the simulator presses. */
    lemma ScannerReadsThePressedKey()
      requires Released() || (0 <= pressRow < 8 && 0 <= pressGroup < 16)
      ensures ReadingOf(Codes(Lines(), |Lines()|)) ==
              Key(if 1 <= pressGroup <= 3 then KeyCode(pressRow, pressGroup) else 0)
    {
      hide Codes;
      if 1 <= pressGroup <= 3 {
        forall r, g | 0 <= r < 8 && 1 <= g <= 3
          ensures Down(Lines(), r, g) <==> r == pressRow && g == pressGroup
        {
          ColumnBits(r, g);
        }
        ReadsKeyIff(Lines(), pressRow, pressGroup);
      } else {
        forall r, g | 0 <= r < 8 && 1 <= g <= 3 ensures !Down(Lines(), r, g) {
          ColumnBits(r, g);
        }
        ReadsNoneIff(Lines());
      }
    }

    lemma ColumnBits(r: nat, g: nat)
      requires r < 8 && 1 <= g <= 3
      ensures Down(Lines(), r, g) <==> 1 <= pressGroup <= 3 && pressRow == r && pressGroup == g
    {
      assert Lines()[r] == Column(r);
    }
  }

  /** A whole scan of the simulated teachbox. */
  method ScanBox(keyboard: Keyboard, box: Box) returns (key: byte)
    requires box.Released() || (0 <= box.pressRow < 8 && 0 <= box.pressGroup < 16)
    modifies keyboard
    ensures (keyboard.State(), key) ==
            old(if keyboard.event then (keyboard.State().(prev := EVENT, ready := false), EVENT)
                else Filtered(keyboard.State(),
                              if 1 <= box.pressGroup <= 3 then KeyCode(box.pressRow, box.pressGroup) else 0))
  {
    box.ScannerReadsThePressedKey();
    hide Codes, ReadingOf;
    key := keyboard.Scan(box.Lines());
  }
}
