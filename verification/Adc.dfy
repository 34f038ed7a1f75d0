/** The analog-digital converter as the simulator models it: a sensor, and the interrupt that clocks the servo. */
module Adc {
  import opened Bytes

  class Converter {
    const delay: nat
    var pots: seq<byte>
    var channel: nat
    var countdown: int
    var eoc: bool              // TCON.IE1
    ghost var started: nat
    ghost var raised: nat

    ghost predicate Valid()
      reads this
    {
      && delay > 0 && |pots| == 8 && channel < 8
      && raised + (if Converting() then 1 else 0) <= started
    }

    predicate Converting()
      reads this
    {
      countdown >= 0
    }

    constructor (delay: nat)
      requires delay > 0
      ensures Valid() && !Converting() && !eoc && started == 0 && raised == 0
    {
      this.delay := delay;
      pots := [0x80, 0x80, 0x80, 0x80, 0x80, 0x80, 0x80, 0x80];
      channel, countdown, eoc := 0, -1, false;
      started, raised := 0, 0;
    }

    /** A write to 0x5800 selects a channel and starts a conversion. */
    method StartConversion(v: byte)
      requires Valid()
      modifies this`channel, this`countdown, this`started
      ensures Valid() && channel == v % 8 && countdown == delay && started == old(started) + 1
    {
      channel := v % 8;
      countdown := delay;
      started := started + 1;
    }

    /** Either window reads the potentiometer of the selected channel. */
    function Read(): byte
      requires Valid()
      reads this
    {
      pots[channel]
    }

    /** cycles machine cycles pass; the end of a conversion is signalled once. */
    method Tick(cycles: nat)
      requires Valid()
      modifies this`countdown, this`eoc, this`raised
      ensures Valid()
      ensures Converting() <==> old(Converting() && countdown > cycles)
      ensures eoc == (old(eoc) || (old(Converting()) && !Converting()))
      ensures raised == old(raised) + (if old(Converting()) && !Converting() then 1 else 0)
      ensures countdown == if !old(Converting()) then old(countdown) else if Converting() then old(countdown) - cycles else -1
    {
      if countdown < 0 {
        return;
      }
      countdown := countdown - cycles;
      if countdown > 0 {
        return;
      }
      countdown := -1;
      eoc := true;
      raised := raised + 1;
    }
  }
}
