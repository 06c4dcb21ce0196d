/**
 * The AD985x serial protocol as a sequence of bus and pin events: the event
 * sequences each driver operation emits, and two readers of an event
 * sequence that do not look at how it was built (the bus-transaction
 * discipline and the groups of bytes committed by the latch strobe).
 */
module DdsProtocol {
  import opened LittleEndian

  datatype Option<T> = None | Some(value: T)

  datatype Level = Low | High
  datatype BitOrder = LsbFirst | MsbFirst
  datatype SpiMode = Mode0 | Mode1 | Mode2 | Mode3

  /** One observable effect of the driver on the serial bus or a digital pin. */
  datatype Event =
    | PinModeOutput(pin: int)
    | Write(pin: int, level: Level)
    | BeginTxn(rate: nat, order: BitOrder, mode: SpiMode)
    | Transfer(b: u8)
    | EndTxn

  /** The bus clock rate, 8 Mbit/s (the build-time alternatives are 2 and 4 Mbit/s). */
  const SpiRate: nat := 8000000

  /** The one-byte control word with only the power-down bit set. */
  const PowerDownByte: u8 := 0x04

  /** The settings every transaction of the driver opens with. */
  const Open: Event := BeginTxn(SpiRate, LsbFirst, Mode0)

  /** A pulse on `pin`: HIGH then LOW. */
  function PulseEvents(pin: int): seq<Event>
  {
    [Write(pin, High), Write(pin, Low)]
  }

  /** One bus transfer per byte, in order. */
  function Transfers(bs: seq<u8>): (ts: seq<Event>)
    ensures |ts| == |bs|
  {
    if bs == [] then [] else [Transfer(bs[0])] + Transfers(bs[1..])
  }

  /** The 40-bit control word: the delta-phase word low byte first, then the control byte. */
  function Frame(deltaphase: u32, phase: u32): seq<u8>
  {
    LeBytes(deltaphase as nat, 4) + [Low8(phase as nat)]
  }

  /** What an update emits for the given delta-phase word, control value and latch pin. */
  function UpdateEvents(deltaphase: u32, phase: u32, fqUd: int): seq<Event>
  {
    [Open] + Transfers(Frame(deltaphase, phase)) + PulseEvents(fqUd) + [EndTxn]
  }

  /** What a power-down emits. */
  function DownEvents(fqUd: int): seq<Event>
  {
    PulseEvents(fqUd) + [Open, Transfer(PowerDownByte), EndTxn] + PulseEvents(fqUd)
  }

  /** What a reset emits: three pulses, then the update of the 1 Hz word. */
  function ResetEvents(resetPin: int, wClk: int, fqUd: int, word: u32, phase: u32): seq<Event>
  {
    PulseEvents(resetPin) + PulseEvents(wClk) + PulseEvents(fqUd) + UpdateEvents(word, phase, fqUd)
  }

  /** What initialisation emits: the three pins made outputs, then a reset. */
  function BeginEvents(wClk: int, fqUd: int, resetPin: int, word: u32, phase: u32): seq<Event>
  {
    [PinModeOutput(wClk), PinModeOutput(fqUd), PinModeOutput(resetPin)]
      + ResetEvents(resetPin, wClk, fqUd, word, phase)
  }

  /** Splits a 5-byte control word into its delta-phase word and control byte. */
  function DecodeFrame(f: seq<u8>): Option<(u32, u8)>
  {
    if |f| != 5 then None else Some((FromLe(f[..4]) as u32, f[4]))
  }

  // ---------------------------------------------------------------------
  // Reader 1: the bus-transaction discipline.

  /**
   * Whether a transaction is open after `evs`, starting with one open or not;
   * None when `evs` misuses the bus: a transaction begun inside another, an
   * end with none open, or a byte transferred outside a transaction.
   */
  function TxnState(evs: seq<Event>, open: bool): Option<bool>
  {
    if evs == [] then Some(open)
    else
      var next :=
        match evs[0]
        case BeginTxn(_, _, _) => if open then None else Some(true)
        case EndTxn => if open then Some(false) else None
        case Transfer(_) => if open then Some(true) else None
        case _ => Some(open);
      match next
      case None => None
      case Some(o) => TxnState(evs[1..], o)
  }

  /** Every transaction in `evs` is closed before the next one begins, and none is left open. */
  predicate Bracketed(evs: seq<Event>)
  {
    TxnState(evs, false) == Some(false)
  }

  // ---------------------------------------------------------------------
  // Reader 2: what the latch strobe commits.

  /**
   * The groups of bytes committed by the latch pin `fqUd`: every transferred
   * byte is appended to the pending group, and every HIGH write on `fqUd`
   * commits the pending group and starts an empty one.
   */
  function Committed(evs: seq<Event>, fqUd: int, pending: seq<u8>): seq<seq<u8>>
  {
    if evs == [] then []
    else
      match evs[0]
      case Transfer(b) => Committed(evs[1..], fqUd, pending + [b])
      case Write(p, High) =>
        if p == fqUd then [pending] + Committed(evs[1..], fqUd, [])
        else Committed(evs[1..], fqUd, pending)
      case _ => Committed(evs[1..], fqUd, pending)
  }

  /** The bytes transferred after the last HIGH write on `fqUd`, not yet committed. */
  function Pending(evs: seq<Event>, fqUd: int, pending: seq<u8>): seq<u8>
  {
    if evs == [] then pending
    else
      match evs[0]
      case Transfer(b) => Pending(evs[1..], fqUd, pending + [b])
      case Write(p, High) => Pending(evs[1..], fqUd, if p == fqUd then [] else pending)
      case _ => Pending(evs[1..], fqUd, pending)
  }

  // ---------------------------------------------------------------------
  // The control word.

  /**
   * The control word is five bytes: byte i < 4 is `(deltaphase >> 8*i) & 0xFF`,
   * reassembling the first four little-endian gives the delta-phase word back,
   * and the fifth is `phase & 0xFF` whatever the delta-phase word is.
   */
  lemma FrameBytes(deltaphase: u32, phase: u32)
    ensures |Frame(deltaphase, phase)| == 5
    ensures forall i :: 0 <= i < 4 ==> Frame(deltaphase, phase)[i] == Low8(deltaphase as nat / Pow256(i))
    ensures FromLe(Frame(deltaphase, phase)[..4]) == deltaphase as nat
    ensures Frame(deltaphase, phase)[4] == Low8(phase as nat)
  {
    var f := Frame(deltaphase, phase);
    assert f[..4] == LeBytes(deltaphase as nat, 4);
    forall i | 0 <= i < 4
      ensures f[i] == Low8(deltaphase as nat / Pow256(i))
    {
      LeBytesAt(deltaphase as nat, 4, i);
    }
    FromLeBytes(deltaphase as nat, 4);
  }

  /** Decoding a control word gives back the delta-phase word and the control byte. */
  lemma DecodeFrameRoundTrip(deltaphase: u32, phase: u32)
    ensures DecodeFrame(Frame(deltaphase, phase)) == Some((deltaphase, Low8(phase as nat)))
  {
    FrameBytes(deltaphase, phase);
  }

  /** Every 5-byte string is the control word of the values it decodes to, and no other length decodes. */
  lemma DecodeFrameInverse(f: seq<u8>)
    ensures DecodeFrame(f).Some? <==> |f| == 5
    ensures DecodeFrame(f).Some? ==> f == Frame(DecodeFrame(f).value.0, DecodeFrame(f).value.1 as u32)
  {
    if |f| == 5 {
      var d := FromLe(f[..4]) as u32;
      LeBytesFromLe(f[..4]);
      assert Low8(f[4] as nat) == f[4];
      assert f == f[..4] + [f[4]];
    }
  }

  /**
   * Two worked control words: the delta-phase word 343597383 with control
   * value 0 (what 10 MHz at 125 MHz comes to on an AD9850) and the word 23
   * with control value 1 (1 Hz at 180 MHz on an AD9851). Only the encoding
   * of these given words is stated, not the conversion that produces them.
   */
  lemma ExampleFrames()
    ensures Frame(343597383, 0x00) == [0x47, 0xE1, 0x7A, 0x14, 0x00]
    ensures Frame(23, 0x01) == [23, 0, 0, 0, 0x01]
  {
  }

  // ---------------------------------------------------------------------
  // Lemmas about the event sequences.

  /** Transfers sends one byte per transfer event, in order. */
  lemma {:induction false} TransfersAt(bs: seq<u8>, i: nat)
    requires i < |bs|
    ensures Transfers(bs)[i] == Transfer(bs[i])
  {
    if i > 0 {
      TransfersAt(bs[1..], i - 1);
    }
  }

  lemma TransfersSnoc(bs: seq<u8>, b: u8)
    ensures Transfers(bs + [b]) == Transfers(bs) + [Transfer(b)]
  {
    TransfersAppend(bs, [b]);
    assert Transfers([b]) == [Transfer(b)];
  }

  lemma {:induction false} TransfersAppend(a: seq<u8>, b: seq<u8>)
    ensures Transfers(a + b) == Transfers(a) + Transfers(b)
  {
    if a != [] {
      assert (a + b)[1..] == a[1..] + b;
      TransfersAppend(a[1..], b);
    } else {
      assert a + b == b;
    }
  }

  /** Sequencing: the transaction state after a + b is that after b, started from that after a. */
  lemma {:induction false} TxnStateAppend(a: seq<Event>, b: seq<Event>, open: bool)
    ensures TxnState(a + b, open) ==
      match TxnState(a, open)
      case None => None
      case Some(o) => TxnState(b, o)
  {
    if a != [] {
      assert (a + b)[0] == a[0] && (a + b)[1..] == a[1..] + b;
      TxnStateAppend(a[1..], b, true);
      TxnStateAppend(a[1..], b, false);
    } else {
      assert a + b == b;
    }
  }

  /** Two well-bracketed event sequences, one after the other, are well bracketed. */
  lemma BracketedAppend(a: seq<Event>, b: seq<Event>)
    requires Bracketed(a) && Bracketed(b)
    ensures Bracketed(a + b)
  {
    TxnStateAppend(a, b, false);
  }

  /** Sequencing for the latch reader. */
  lemma {:induction false} CommittedAppend(a: seq<Event>, b: seq<Event>, fqUd: int, pending: seq<u8>)
    ensures Committed(a + b, fqUd, pending)
      == Committed(a, fqUd, pending) + Committed(b, fqUd, Pending(a, fqUd, pending))
    ensures Pending(a + b, fqUd, pending) == Pending(b, fqUd, Pending(a, fqUd, pending))
  {
    if a != [] {
      assert (a + b)[0] == a[0] && (a + b)[1..] == a[1..] + b;
      match a[0]
      case Transfer(x) =>
        CommittedAppend(a[1..], b, fqUd, pending + [x]);
      case Write(p, High) =>
        CommittedAppend(a[1..], b, fqUd, if p == fqUd then [] else pending);
      case _ =>
        CommittedAppend(a[1..], b, fqUd, pending);
    } else {
      assert a + b == b;
    }
  }

  /** What both readers make of one event standing alone. */
  lemma SingleEvent(e: Event, open: bool, fqUd: int, pending: seq<u8>)
    ensures TxnState([e], open) ==
      if e.BeginTxn? then (if open then None else Some(true))
      else if e.EndTxn? then (if open then Some(false) else None)
      else if e.Transfer? then (if open then Some(true) else None)
      else Some(open)
    ensures Committed([e], fqUd, pending) == if e == Write(fqUd, High) then [pending] else []
    ensures Pending([e], fqUd, pending) ==
      if e.Transfer? then pending + [e.b]
      else if e == Write(fqUd, High) then []
      else pending
  {
    assert [e][1..] == [];
  }

  /** A pulse touches no transaction, and a pulse on the latch pin commits the pending group. */
  lemma PulseReaders(pin: int, open: bool, fqUd: int, pending: seq<u8>)
    ensures TxnState(PulseEvents(pin), open) == Some(open)
    ensures Committed(PulseEvents(pin), fqUd, pending) == if pin == fqUd then [pending] else []
    ensures Pending(PulseEvents(pin), fqUd, pending) == if pin == fqUd then [] else pending
  {
    var hi, lo := Write(pin, High), Write(pin, Low);
    assert PulseEvents(pin) == [hi] + [lo];
    SingleEvent(hi, open, fqUd, pending);
    SingleEvent(lo, open, fqUd, Pending([hi], fqUd, pending));
    TxnStateAppend([hi], [lo], open);
    CommittedAppend([hi], [lo], fqUd, pending);
  }

  /** Bytes transferred inside an open transaction keep it open, commit nothing and are appended to the pending group. */
  lemma {:induction false} TransfersReaders(bs: seq<u8>, rest: seq<Event>, fqUd: int, pending: seq<u8>)
    ensures TxnState(Transfers(bs) + rest, true) == TxnState(rest, true)
    ensures Committed(Transfers(bs), fqUd, pending) == []
    ensures Pending(Transfers(bs), fqUd, pending) == pending + bs
  {
    if bs != [] {
      assert (Transfers(bs) + rest)[1..] == Transfers(bs[1..]) + rest;
      TransfersReaders(bs[1..], rest, fqUd, pending + [bs[0]]);
      assert pending + [bs[0]] + bs[1..] == pending + bs;
    } else {
      assert Transfers(bs) + rest == rest;
    }
  }

  /**
   * An update is one well-bracketed transaction: it opens with the driver's
   * settings, transfers the five bytes of the control word, pulses the
   * latch pin while the transaction is still open, and then closes it.
   */
  lemma UpdateEventsShape(deltaphase: u32, phase: u32, fqUd: int)
    ensures var e := UpdateEvents(deltaphase, phase, fqUd);
      && |e| == 9
      && e[0] == BeginTxn(8000000, LsbFirst, Mode0)
      && (forall i :: 1 <= i < 6 ==> e[i] == Transfer(Frame(deltaphase, phase)[i - 1]))
      && e[6] == Write(fqUd, High) && e[7] == Write(fqUd, Low)
      && e[8] == EndTxn
    ensures Bracketed(UpdateEvents(deltaphase, phase, fqUd))
  {
    var f := Frame(deltaphase, phase);
    var tail := PulseEvents(fqUd) + [EndTxn];
    var e := UpdateEvents(deltaphase, phase, fqUd);
    assert e == [Open] + (Transfers(f) + tail);
    assert e[1..] == Transfers(f) + tail;
    forall i | 1 <= i < 6
      ensures e[i] == Transfer(f[i - 1])
    {
      TransfersAt(f, i - 1);
    }
    TransfersReaders(f, tail, fqUd, []);
    PulseReaders(fqUd, true, fqUd, []);
    SingleEvent(EndTxn, true, fqUd, []);
    TxnStateAppend(PulseEvents(fqUd), [EndTxn], true);
  }

  /** The update events, appended one by one to a well-bracketed trace, leave it well bracketed. */
  lemma UpdateAppended(t0: seq<Event>, deltaphase: u32, phase: u32, fqUd: int)
    ensures t0 + [Open] + Transfers(LeBytes(deltaphase as nat, 4)) + [Transfer(Low8(phase as nat))]
              + PulseEvents(fqUd) + [EndTxn]
            == t0 + UpdateEvents(deltaphase, phase, fqUd)
    ensures Bracketed(t0) ==> Bracketed(t0 + UpdateEvents(deltaphase, phase, fqUd))
  {
    var x := Low8(phase as nat);
    TransfersAppend(LeBytes(deltaphase as nat, 4), [x]);
    assert Transfers([x]) == [Transfer(x)];
    UpdateEventsShape(deltaphase, phase, fqUd);
    if Bracketed(t0) {
      BracketedAppend(t0, UpdateEvents(deltaphase, phase, fqUd));
    }
  }

  /** A power-down is one well-bracketed single-byte transaction between two latch pulses. */
  lemma DownEventsShape(fqUd: int)
    ensures DownEvents(fqUd) == [Write(fqUd, High), Write(fqUd, Low), BeginTxn(8000000, LsbFirst, Mode0),
                                 Transfer(0x04), EndTxn, Write(fqUd, High), Write(fqUd, Low)]
    ensures Bracketed(DownEvents(fqUd))
  {
    var txn := [Open, Transfer(PowerDownByte), EndTxn];
    assert txn == [Open] + ([Transfer(PowerDownByte)] + [EndTxn]);
    SingleEvent(Open, false, fqUd, []);
    SingleEvent(Transfer(PowerDownByte), true, fqUd, []);
    SingleEvent(EndTxn, true, fqUd, []);
    TxnStateAppend([Transfer(PowerDownByte)], [EndTxn], true);
    TxnStateAppend([Open], [Transfer(PowerDownByte)] + [EndTxn], false);
    PulseReaders(fqUd, false, fqUd, []);
    BracketedAppend(PulseEvents(fqUd), txn);
    BracketedAppend(PulseEvents(fqUd) + txn, PulseEvents(fqUd));
  }

  /** The three pulses that open a reset touch no transaction. */
  lemma PulsesBracketed(a: int, b: int, c: int)
    ensures Bracketed(PulseEvents(a) + PulseEvents(b) + PulseEvents(c))
  {
    PulseReaders(a, false, c, []);
    PulseReaders(b, false, c, []);
    PulseReaders(c, false, c, []);
    BracketedAppend(PulseEvents(a), PulseEvents(b));
    BracketedAppend(PulseEvents(a) + PulseEvents(b), PulseEvents(c));
  }

  /** Configuring pins touches no transaction. */
  lemma PinModesBracketed(a: int, b: int, c: int)
    ensures Bracketed([PinModeOutput(a), PinModeOutput(b), PinModeOutput(c)])
  {
    var pins := [PinModeOutput(a), PinModeOutput(b), PinModeOutput(c)];
    assert pins == [pins[0]] + ([pins[1]] + [pins[2]]);
    SingleEvent(pins[0], false, c, []);
    SingleEvent(pins[1], false, c, []);
    SingleEvent(pins[2], false, c, []);
    BracketedAppend([pins[1]], [pins[2]]);
    BracketedAppend([pins[0]], [pins[1]] + [pins[2]]);
  }

  /** Configuring the pins one by one keeps a trace well bracketed. */
  lemma PinModesAppended(t0: seq<Event>, a: int, b: int, c: int)
    ensures Bracketed(t0) ==> Bracketed(t0 + [PinModeOutput(a)] + [PinModeOutput(b)] + [PinModeOutput(c)])
  {
    PinModesBracketed(a, b, c);
    assert t0 + [PinModeOutput(a)] + [PinModeOutput(b)] + [PinModeOutput(c)]
      == t0 + [PinModeOutput(a), PinModeOutput(b), PinModeOutput(c)];
    if Bracketed(t0) {
      BracketedAppend(t0, [PinModeOutput(a), PinModeOutput(b), PinModeOutput(c)]);
    }
  }

  /** The three reset pulses followed by an update are the reset sequence; both keep a trace well bracketed. */
  lemma ResetAppended(t0: seq<Event>, resetPin: int, wClk: int, fqUd: int, word: u32, phase: u32)
    ensures t0 + PulseEvents(resetPin) + PulseEvents(wClk) + PulseEvents(fqUd) + UpdateEvents(word, phase, fqUd)
            == t0 + ResetEvents(resetPin, wClk, fqUd, word, phase)
    ensures Bracketed(t0) ==> Bracketed(t0 + PulseEvents(resetPin) + PulseEvents(wClk) + PulseEvents(fqUd))
    ensures Bracketed(t0) ==> Bracketed(t0 + ResetEvents(resetPin, wClk, fqUd, word, phase))
  {
    var pulses := PulseEvents(resetPin) + PulseEvents(wClk) + PulseEvents(fqUd);
    assert t0 + PulseEvents(resetPin) + PulseEvents(wClk) + PulseEvents(fqUd) == t0 + pulses;
    if Bracketed(t0) {
      PulsesBracketed(resetPin, wClk, fqUd);
      BracketedAppend(t0, pulses);
      BeginEventsBracketed(wClk, fqUd, resetPin, word, phase);
      BracketedAppend(t0, ResetEvents(resetPin, wClk, fqUd, word, phase));
    }
  }

  /** The pin configuration followed by a reset is the initialisation sequence. */
  lemma BeginAppended(t0: seq<Event>, wClk: int, fqUd: int, resetPin: int, word: u32, phase: u32)
    ensures t0 + [PinModeOutput(wClk)] + [PinModeOutput(fqUd)] + [PinModeOutput(resetPin)]
              + ResetEvents(resetPin, wClk, fqUd, word, phase)
            == t0 + BeginEvents(wClk, fqUd, resetPin, word, phase)
  {
  }

  /** A reset and an initialisation are well bracketed. */
  lemma BeginEventsBracketed(wClk: int, fqUd: int, resetPin: int, word: u32, phase: u32)
    ensures Bracketed(ResetEvents(resetPin, wClk, fqUd, word, phase))
    ensures Bracketed(BeginEvents(wClk, fqUd, resetPin, word, phase))
  {
    PulsesBracketed(resetPin, wClk, fqUd);
    var pulses := PulseEvents(resetPin) + PulseEvents(wClk) + PulseEvents(fqUd);
    UpdateEventsShape(word, phase, fqUd);
    BracketedAppend(pulses, UpdateEvents(word, phase, fqUd));
    PinModesBracketed(wClk, fqUd, resetPin);
    BracketedAppend([PinModeOutput(wClk), PinModeOutput(fqUd), PinModeOutput(resetPin)],
                    ResetEvents(resetPin, wClk, fqUd, word, phase));
  }

  /**
   * An update commits exactly one group: the bytes pending before it followed
   * by its five-byte control word, and leaves nothing pending.
   */
  lemma UpdateEventsCommit(deltaphase: u32, phase: u32, fqUd: int, pending: seq<u8>)
    ensures Committed(UpdateEvents(deltaphase, phase, fqUd), fqUd, pending)
      == [pending + Frame(deltaphase, phase)]
    ensures Pending(UpdateEvents(deltaphase, phase, fqUd), fqUd, pending) == []
  {
    var f := Frame(deltaphase, phase);
    var tail := PulseEvents(fqUd) + [EndTxn];
    var e := UpdateEvents(deltaphase, phase, fqUd);
    assert e == [Open] + (Transfers(f) + tail);
    assert e[1..] == Transfers(f) + tail;
    TransfersReaders(f, tail, fqUd, pending);
    CommittedAppend(Transfers(f), tail, fqUd, pending);
    PulseReaders(fqUd, true, fqUd, pending + f);
    SingleEvent(EndTxn, true, fqUd, []);
    CommittedAppend(PulseEvents(fqUd), [EndTxn], fqUd, pending + f);
  }

  /**
   * A power-down commits the bytes pending before it, then the single
   * power-down byte, and leaves nothing pending.
   */
  lemma DownEventsCommit(fqUd: int, pending: seq<u8>)
    ensures Committed(DownEvents(fqUd), fqUd, pending) == [pending, [PowerDownByte]]
    ensures Pending(DownEvents(fqUd), fqUd, pending) == []
  {
    var txn := [Open, Transfer(PowerDownByte), EndTxn];
    assert txn == [Open] + ([Transfer(PowerDownByte)] + [EndTxn]);
    SingleEvent(Open, false, fqUd, []);
    SingleEvent(Transfer(PowerDownByte), true, fqUd, []);
    SingleEvent(EndTxn, true, fqUd, [PowerDownByte]);
    CommittedAppend([Transfer(PowerDownByte)], [EndTxn], fqUd, []);
    CommittedAppend([Open], [Transfer(PowerDownByte)] + [EndTxn], fqUd, []);
    PulseReaders(fqUd, false, fqUd, pending);
    PulseReaders(fqUd, false, fqUd, [PowerDownByte]);
    assert [] + [PowerDownByte] == [PowerDownByte];
    assert Committed(txn, fqUd, []) == [] && Pending(txn, fqUd, []) == [PowerDownByte];
    CommittedAppend(PulseEvents(fqUd), txn, fqUd, pending);
    CommittedAppend(PulseEvents(fqUd) + txn, PulseEvents(fqUd), fqUd, pending);
    assert DownEvents(fqUd) == PulseEvents(fqUd) + txn + PulseEvents(fqUd);
  }

  /**
   * A reset ends by committing the control word of the 1 Hz update on its own:
   * the latch pulse of the reset sequence has just emptied the pending group.
   */
  lemma ResetEventsCommit(resetPin: int, wClk: int, fqUd: int, word: u32, phase: u32, pending: seq<u8>)
    ensures var c := Committed(ResetEvents(resetPin, wClk, fqUd, word, phase), fqUd, pending);
      |c| >= 2 && c[|c| - 1] == Frame(word, phase)
    ensures Pending(ResetEvents(resetPin, wClk, fqUd, word, phase), fqUd, pending) == []
  {
    var p1 := PulseEvents(resetPin) + PulseEvents(wClk);
    var pulses := p1 + PulseEvents(fqUd);
    CommittedAppend(p1, PulseEvents(fqUd), fqUd, pending);
    PulseReaders(fqUd, false, fqUd, Pending(p1, fqUd, pending));
    CommittedAppend(pulses, UpdateEvents(word, phase, fqUd), fqUd, pending);
    UpdateEventsCommit(word, phase, fqUd, []);
  }

  /**
   * An update, a power-down and a power-up in a row: the power-up commits a
   * zero delta-phase word with the same control byte, not the word of the
   * first update (the update left the stored word shifted out to zero).
   */
  lemma UpdateDownUpCommit(deltaphase: u32, phase: u32, fqUd: int)
    ensures Committed(UpdateEvents(deltaphase, phase, fqUd) + DownEvents(fqUd) + UpdateEvents(0, phase, fqUd), fqUd, [])
      == [Frame(deltaphase, phase), [], [PowerDownByte], [0, 0, 0, 0, Low8(phase as nat)]]
  {
    var u := UpdateEvents(deltaphase, phase, fqUd);
    var dn := DownEvents(fqUd);
    UpdateEventsCommit(deltaphase, phase, fqUd, []);
    DownEventsCommit(fqUd, []);
    CommittedAppend(u, dn, fqUd, []);
    UpdateEventsCommit(0, phase, fqUd, []);
    CommittedAppend(u + dn, UpdateEvents(0, phase, fqUd), fqUd, []);
    assert [] + Frame(deltaphase, phase) == Frame(deltaphase, phase);
    assert [] + Frame(0, phase) == Frame(0, phase);
    assert Pending(u + dn, fqUd, []) == [];
    assert LeBytes(0, 4) == [0, 0, 0, 0];
    assert Frame(0, phase) == [0, 0, 0, 0, Low8(phase as nat)];
  }
}
