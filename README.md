# AD985XSPI: a Dafny model of the AD9850/AD9851 SPI driver

The driver controls an AD9850 or AD9851 direct digital synthesis chip from an
Arduino. It talks to the chip over the SPI bus and three digital pins:
W_CLK (the serial clock strobe), FQ_UD (the frequency-update latch) and RESET.
A frequency is loaded as a 40-bit control word. The word is the 32-bit
delta-phase value, low byte first, then one control byte, the low byte of
`phase`. A pulse on FQ_UD then commits the word to the chip. The driver can
also reset the chip, put it into power-down with the one-byte word `0x04`,
and wake it up again.

The model has three modules:

- `LittleEndian` (`little_endian.dfy`): the 8- and 32-bit unsigned types and
  the little-endian byte encoding that the transmit loop performs. It proves
  the round trip in both directions, and that byte i is `(d >> 8*i) & 0xFF`.
- `DdsProtocol` (`protocol.dfy`): each operation's effect on the bus and pins
  as a sequence of events. It has two readers of an event sequence that work
  independently of how the sequence was built:
  - `TxnState` and `Bracketed` check the bus-transaction discipline (no
    nesting, no transfer outside a transaction);
  - `Committed` gives the groups of bytes that each rising edge on FQ_UD
    commits.

  The lemmas connect each operation's events to both readers and to the
  decoded control word.
- `AD985X` (`ad985x_spi.dfy`): the driver object, class `AD985XSPI`. Its
  fields are the chip variant, the three pins, `phase`, `deltaphase` and
  `calibFreq`. A ghost `trace` records every bus and pin event in order. Each
  method states its new fields and the exact events it appends. The invariant
  `Valid()` says that no bus transaction is left open between operations.
  Every public operation ensures it; `Calibrate` keeps it by leaving the trace
  unchanged, and `Pulse`, which also runs inside `Update`'s open transaction,
  states only the events it appends.

`update` shifts the stored `deltaphase` field itself right by 8 bits four
times, so the stored word is always 0 after a frame has been sent. A later
`up()` therefore sends four zero bytes followed by `phase & 0xFF`, not the
previously loaded frequency word. Power-up therefore does not restore the
previous output frequency, although one might expect it to. The model follows
the code:
`AD985XSPI.Update` ensures `deltaphase == 0`, and
`AD985XSPI.UpdateDownUp` states on the object that an update, a power-down
and a power-up append the frame of the stored word, the power-down events and
then the frame of the zero word. `DdsProtocol.UpdateDownUpCommit` shows what
that sequence commits to the chip.

## Model

| member | source | states |
|---|---|---|
| `AD985X.AD985XSPI.constructor` | sources/AD985XSPI.cpp:46-52 | records the chip variant; starts with an empty event trace |
| `AD985X.AD985XSPI.Begin` | sources/AD985XSPI.cpp:54-76 | stores the three pins; for variant 0 sets phase 0x00 and calibFreq 125 MHz, for variant 1 phase 0x01 and 180 MHz, for any other variant leaves both untouched; makes W_CLK, FQ_UD and RESET outputs in that order, then resets; deltaphase is 0 at the end |
| `AD985X.AD985XSPI.ReSet` | sources/AD985XSPI.cpp:78-85 | appends a pulse on RESET, then W_CLK, then FQ_UD, then exactly one update frame carrying the 1 Hz word at the current calibration frequency |
| `AD985X.AD985XSPI.SetFreq` | sources/AD985XSPI.cpp:87-90 | sends the word converted from freq and the current calibFreq, so a preceding calibrate is used; appends one update frame |
| `AD985X.AD985XSPI.Update` | sources/AD985XSPI.cpp:92-102 | appends exactly the update frame of the delta-phase word held on entry; leaves the stored deltaphase at 0 after the four in-place shifts; keeps the bus discipline |
| `AD985X.AD985XSPI.Calibrate` | sources/AD985XSPI.cpp:104-106 | sets calibFreq to the argument, changes no other field and appends no events |
| `AD985X.AD985XSPI.Down` | sources/AD985XSPI.cpp:108-114 | appends an FQ_UD pulse, a transaction carrying the single byte 0x04, and another FQ_UD pulse; deltaphase, phase and calibFreq are unchanged |
| `AD985X.AD985XSPI.Up` | sources/AD985XSPI.cpp:116-118 | appends an update frame of the stored word (zero after any earlier frame) and phase; phase and calibFreq are unchanged |
| `AD985X.AD985XSPI.Pulse` | sources/AD985XSPI.cpp:120-123 | writes HIGH then LOW to the same pin and nothing else |
| `LittleEndian.LeBytes` | sources/AD985XSPI.cpp:94-96 | the encoding of a word in n bytes is n bytes long |
| `LittleEndian.FromLe` | sources/AD985XSPI.cpp:94-96 | reassembling n bytes as the sum of b_i * 256^i gives a value below 256^n |
| `LittleEndian.FromLeBytes` | sources/AD985XSPI.cpp:94-96 | reassembling the bytes sent for a word that fits in n bytes gives the word back |
| `LittleEndian.LeBytesFromLe` | sources/AD985XSPI.cpp:94-96 | encoding the reassembled value gives the byte string back (the other direction of the round trip) |
| `LittleEndian.LeBytesAt` | sources/AD985XSPI.cpp:94-95 | byte i of the encoding is `(d >> 8*i) & 0xFF` |
| `LittleEndian.ShiftOut` | sources/AD985XSPI.cpp:94-95 | sending the low byte and shifting right by 8 leaves the encoding of the remaining bytes, in a value one byte narrower |
| `DdsProtocol.FrameBytes` | sources/AD985XSPI.cpp:94-98 | the control word is 5 bytes; bytes 0-3 are `(d >> 8*i) & 0xFF` and reassemble to d; byte 4 is `phase & 0xFF` whatever d is |
| `DdsProtocol.DecodeFrameRoundTrip` | sources/AD985XSPI.cpp:94-98 | decoding a control word gives back the delta-phase word and the control byte |
| `DdsProtocol.DecodeFrameInverse` | sources/AD985XSPI.cpp:94-98 | exactly the 5-byte strings decode, and each is the control word of what it decodes to |
| `DdsProtocol.ExampleFrames` | sources/AD985XSPI.cpp:94-98 | the delta-phase words 343597383 (phase 0) and 23 (phase 1) go out as 47 E1 7A 14 00 and 17 00 00 00 01; the frequency conversion that produces those words is not part of this |
| `DdsProtocol.Transfers` | sources/AD985XSPI.cpp:94-98 | one transfer event per byte |
| `DdsProtocol.TransfersAt` | sources/AD985XSPI.cpp:94-98 | transfer event i carries byte i |
| `DdsProtocol.UpdateEventsShape` | sources/AD985XSPI.cpp:92-102 | an update is BeginTxn(8000000, LSBFIRST, MODE0), five transfers of the control word, FQ_UD HIGH, FQ_UD LOW, EndTxn: the latch pulse falls inside the transaction, which is well bracketed |
| `DdsProtocol.UpdateEventsCommit` | sources/AD985XSPI.cpp:92-102 | an update commits exactly one group (the pending bytes followed by its control word) and leaves nothing pending |
| `DdsProtocol.DownEventsShape` | sources/AD985XSPI.cpp:108-114 | a power-down is FQ_UD HIGH/LOW, BeginTxn, Transfer(0x04), EndTxn, FQ_UD HIGH/LOW, and is well bracketed |
| `DdsProtocol.DownEventsCommit` | sources/AD985XSPI.cpp:108-114 | a power-down commits the pending bytes, then the single byte 0x04, and leaves nothing pending |
| `DdsProtocol.ResetEventsCommit` | sources/AD985XSPI.cpp:78-85 | the last group a reset commits is the control word of the 1 Hz update on its own, even when pins coincide |
| `DdsProtocol.BeginEventsBracketed` | sources/AD985XSPI.cpp:54-85 | the reset and initialisation sequences are well bracketed |
| `DdsProtocol.PulseReaders` | sources/AD985XSPI.cpp:120-123 | a pulse opens and closes no transaction, and a pulse on the latch pin commits the pending bytes |
| `AD985X.AD985XSPI.UpdateDownUp` | sources/AD985XSPI.cpp:92-118 | on the object: update, down, up append the frame of the word held on entry, the power-down events, then the frame of the zero word with the same phase; phase and calibFreq are unchanged |
| `DdsProtocol.UpdateDownUpCommit` | sources/AD985XSPI.cpp:92-118 | update, down, up in a row commit the word, an empty group, the byte 0x04, and then a zero delta-phase word with the same control byte |

## Left out

- The double-precision computation of `freq * 4294967296.0 / calibFreq` and
  its conversion to `uint32_t` (sources/AD985XSPI.cpp:88) are not modelled.
  This arithmetic is floating-point rounding, and an out-of-range conversion
  is undefined in C++. The conversion is the function field `toWord`, which
  the constructor receives. `calibFreq` and the frequencies are `real`.
- `AD985X.AD985XSPI.SetFreq`: does not state `deltaphase = floor(freq * 2^32 / calibFreq)`,
  because that conversion is left abstract (previous line). The contract
  states only that the word comes from `toWord(freq, calibFreq)`.
- The Arduino SPI library and `pinMode`/`digitalWrite` are recorded only as
  trace events, not as modelled peripherals.
- The constructor's `SPI.begin()` hardware set-up is not modelled. The
  constructor records only the chip variant.
- The pulse width and other timing are not modelled.
- Only the selected 8 Mbit/s bus rate is modelled. The 2 and 4 Mbit/s
  build-time alternatives are commented out in the source.
- The header AD985XSPI.h is not part of this model. The field widths are
  assumed: `deltaphase` and `phase` are 32-bit unsigned, `DDS_TYPE` is
  `uint8_t` like the constructor's parameter, and pins are `int`.
- The constructor does not set `phase`, `deltaphase`, `calibFreq` or the
  pins, and `begin` sets `phase`, `deltaphase` and `calibFreq` only for chip
  variants 0 and 1. The model gives these fields no specified value: the
  constructor's contract says nothing about them.
- The driver has an implicit life cycle: uninitialised, active, powered
  down. The source does not enforce it, so every operation can be called in
  any order, here as there.
