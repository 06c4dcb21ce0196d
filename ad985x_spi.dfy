/**
 * The AD9850/AD9851 driver object: its fields, and each of its operations
 * as a method that updates the fields and appends the bus and pin events it
 * causes to a ghost trace.
 */
module AD985X {
  import opened LittleEndian
  import opened DdsProtocol

  /** Variant 0 is the AD9850 (125 MHz reference clock), variant 1 the AD9851 (180 MHz). */
  const Ad9850: u8 := 0
  const Ad9851: u8 := 1

  class AD985XSPI {
    /** The chip variant (DDS_TYPE), fixed at construction. */
    const ddsType: u8
    /**
     * The conversion of `freq * 2^32 / calibFreq`, computed in double precision
     * and converted to the 32-bit delta-phase word, as the platform performs it.
     */
    const toWord: (real, real) -> u32

    /** W_CLK, FQ_UD and RESET. */
    var wClk: int
    var fqUd: int
    var resetPin: int

    /** The control value whose low byte is sent as the fifth byte of every frame. */
    var phase: u32
    /** The delta-phase word waiting to be sent. */
    var deltaphase: u32
    /** The reference clock frequency in Hz. */
    var calibFreq: real

    /** Everything the driver has done on the bus and the pins, in order. */
    ghost var trace: seq<Event>

    /** No bus transaction is left open between two operations. */
    ghost predicate Valid()
      reads this
    {
      Bracketed(trace)
    }

    /**
     * Records the chip variant. The pins, phase, delta-phase word and
     * calibration frequency are left unset until Begin.
     */
    constructor (ddsType: u8, toWord: (real, real) -> u32)
      ensures this.ddsType == ddsType && this.toWord == toWord
      ensures trace == [] && Valid()
    {
      this.ddsType := ddsType;
      this.toWord := toWord;
      trace := [];
    }

    /** Stores the pins, loads the variant's defaults, makes the pins outputs and resets the chip. */
    method Begin(wClkPin: int, fqUdPin: int, resetPinId: int)
      requires Valid()
      modifies this`wClk, this`fqUd, this`resetPin, this`phase, this`deltaphase, this`calibFreq, this`trace
      ensures Valid()
      ensures wClk == wClkPin && fqUd == fqUdPin && resetPin == resetPinId
      ensures ddsType == Ad9850 ==> phase == 0x00 && calibFreq == 125000000.0
      ensures ddsType == Ad9851 ==> phase == 0x01 && calibFreq == 180000000.0
      ensures ddsType != Ad9850 && ddsType != Ad9851 ==>
        phase == old(phase) && calibFreq == old(calibFreq)
      ensures deltaphase == 0
      ensures trace == old(trace) + BeginEvents(wClkPin, fqUdPin, resetPinId, toWord(1.0, calibFreq), phase)
    {
      wClk := wClkPin;
      fqUd := fqUdPin;
      resetPin := resetPinId;
      if ddsType == Ad9850 {
        deltaphase := 0;
        phase := 0x00;
        calibFreq := 125000000.0;
      }
      if ddsType == Ad9851 {
        deltaphase := 0;
        phase := 0x01;
        calibFreq := 180000000.0;
      }
      trace := trace + [PinModeOutput(wClk)];
      trace := trace + [PinModeOutput(fqUd)];
      trace := trace + [PinModeOutput(resetPin)];
      PinModesAppended(old(trace), wClk, fqUd, resetPin);
      ReSet();
      BeginAppended(old(trace), wClk, fqUd, resetPin, toWord(1.0, calibFreq), phase);
    }

    /** Pulses RESET, W_CLK and FQ_UD, then sends the 1 Hz word. */
    method ReSet()
      requires Valid()
      modifies this`deltaphase, this`trace
      ensures Valid()
      ensures deltaphase == 0
      ensures trace == old(trace) + ResetEvents(resetPin, wClk, fqUd, toWord(1.0, calibFreq), phase)
    {
      Pulse(resetPin);
      Pulse(wClk);
      Pulse(fqUd);
      ResetAppended(old(trace), resetPin, wClk, fqUd, toWord(1.0, calibFreq), phase);
      SetFreq(1.0);
    }

    /** Stores the delta-phase word for `freq` at the current calibration frequency and sends it. */
    method SetFreq(freq: real)
      requires Valid()
      modifies this`deltaphase, this`trace
      ensures Valid()
      ensures deltaphase == 0
      ensures trace == old(trace) + UpdateEvents(toWord(freq, calibFreq), phase, fqUd)
    {
      deltaphase := toWord(freq, calibFreq);
      Update();
    }

    /**
     * Sends the stored delta-phase word low byte first, then the low byte of
     * phase, and latches them with a pulse on FQ_UD inside the transaction.
     * The word is shifted out of the field itself, which is zero afterwards.
     */
    method Update()
      requires Valid()
      modifies this`deltaphase, this`trace
      ensures Valid()
      ensures deltaphase == 0
      ensures trace == old(trace) + UpdateEvents(old(deltaphase), phase, fqUd)
    {
      ghost var sent: seq<u8> := [];
      trace := trace + [BeginTxn(SpiRate, LsbFirst, Mode0)];
      var i := 0;
      while i < 4
        invariant 0 <= i <= 4
        invariant deltaphase as nat < Pow256(4 - i)
        invariant sent + LeBytes(deltaphase as nat, 4 - i) == LeBytes(old(deltaphase) as nat, 4)
        invariant trace == old(trace) + [Open] + Transfers(sent)
      {
        trace := trace + [Transfer(Low8(deltaphase as nat))];
        ShiftOut(deltaphase as nat, 4 - i);
        TransfersSnoc(sent, Low8(deltaphase as nat));
        sent := sent + [Low8(deltaphase as nat)];
        i, deltaphase := i + 1, Shr8(deltaphase);
      }
      assert sent == LeBytes(old(deltaphase) as nat, 4) by {
        assert sent + [] == sent;
      }
      trace := trace + [Transfer(Low8(phase as nat))];
      Pulse(fqUd);
      trace := trace + [EndTxn];
      UpdateAppended(old(trace), old(deltaphase), phase, fqUd);
    }

    /** Replaces the calibration frequency; nothing is sent. */
    method Calibrate(trimFreq: real)
      modifies this`calibFreq
      ensures calibFreq == trimFreq
      ensures trace == old(trace) && deltaphase == old(deltaphase) && phase == old(phase)
    {
      calibFreq := trimFreq;
    }

    /** Sends the one-byte power-down word between two pulses on FQ_UD. */
    method Down()
      requires Valid()
      modifies this`trace
      ensures Valid()
      ensures trace == old(trace) + DownEvents(fqUd)
      ensures deltaphase == old(deltaphase) && phase == old(phase) && calibFreq == old(calibFreq)
    {
      Pulse(fqUd);
      trace := trace + [BeginTxn(SpiRate, LsbFirst, Mode0)];
      trace := trace + [Transfer(PowerDownByte)];
      trace := trace + [EndTxn];
      Pulse(fqUd);
      assert trace == old(trace) + DownEvents(fqUd);
      DownEventsShape(fqUd);
      BracketedAppend(old(trace), DownEvents(fqUd));
    }

    /** Sends the stored delta-phase word and phase again (the word is zero after any earlier send). */
    method Up()
      requires Valid()
      modifies this`deltaphase, this`trace
      ensures Valid()
      ensures deltaphase == 0
      ensures trace == old(trace) + UpdateEvents(old(deltaphase), phase, fqUd)
      ensures phase == old(phase) && calibFreq == old(calibFreq)
    {
      Update();
    }

    /**
     * An update followed by a power-down and a power-up: the power-up sends
     * the zero word, because the update shifted the stored word out to zero.
     */
    method UpdateDownUp()
      requires Valid()
      modifies this`deltaphase, this`trace
      ensures Valid()
      ensures deltaphase == 0
      ensures trace == old(trace) + UpdateEvents(old(deltaphase), phase, fqUd)
                                  + DownEvents(fqUd) + UpdateEvents(0, phase, fqUd)
      ensures phase == old(phase) && calibFreq == old(calibFreq)
    {
      Update();
      Down();
      Up();
    }

    /** Drives `pin` HIGH then LOW. */
    method Pulse(pin: int)
      modifies this`trace
      ensures trace == old(trace) + PulseEvents(pin)
    {
      trace := trace + [Write(pin, High)];
      trace := trace + [Write(pin, Low)];
    }
  }
}
