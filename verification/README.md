# Verification of the protocol layer

This project models the protocol codecs under the radio apps, and the board of one game, and proves what they are for.
It covers eight components:

- **AX.25 / APRS** (`Bits`, `Crc16`, `Ax25Line`, `Ax25Rx`, `Ax25Link`, `AprsTx`, `AprsPath`, `AprsRx`, `AprsRoundTrip`): the frame builder with
  bit stuffing and NRZI, the HDLC bit decoder, and the packet printer, joined into one theorem from the transmit form to the
  receive console.
- **AIS** (`Ais`, `AisAir`): NRZI, HDLC transparency, the frame check in its two spellings, and the packet builder, joined into one theorem
  from the transmitted line to checked packets.
- **BLE advertising** (`BleCrc`, `BleTx`, `BleRx`, `BleLink`): the serial and the table CRC, whitening, the packet builder and parser.
- **POCSAG** (`PocsagCode`, `PocsagWord`, `PocsagEcc`, `PocsagTx`, `PocsagRx`, `PocsagPage`, `PocsagLost`, `PocsagNumeric`,
  `PocsagFraming`, `PocsagAir`): the BCH(31,21) corrector and its table, the page encoder for text and digits, the resumable batch decoder, and the sync and batch
  extractor behind its bit queue, joined into one theorem that takes a page from the transmitted bits to the pager.
- **ADS-B / Mode S** (`AdsbCpr`, `AdsbParity`, `AdsbFrame`, `AdsbIdent`, `AdsbResample`, `AdsbDemod`, `AdsbLink`, `AdsbAir`,
  `AdsbTrack`): Compact Position Reporting, the parity field, frame packing, the pulse-position demodulator and its rate converter,
  joined into one theorem that takes a position through the air, and the tracker's pairing of frames into positions.
- **ACARS** (`Acars`, `AcarsLink`): the block framer and the block check.
- **Analog television** (`AnalogTv`): the line framer and the sync detector.
- **Battleship** (`Battleship`): the board.

## How it is built

Code that changes fields or arrays step by step is a class or a method with loops, and its contract equates the whole new state
with a function of the old one; the theorems are about those functions. Octets and registers are bit-vectors of the source's width,
so shifts and wrap-around are the machine's. Bits on a line are `bool`. Floating point is exact `real`. Handler callbacks are a
field that lists what the handler has been called with.

`dafny verify dfyconfig.toml` checks all of it.

## Where the code falls short of what it is for

- AIS: a payload of 318 octets or more is built but never accepted (`Ais.CrcOkIffItFits`).
- AIS: one wrong bit in sixteen is meant to be tolerated at the start, but with the first or the sixth bit of the flag wrong the start is
  found two bits early (`AisAir.StartWithWrongBit`).
- POCSAG: the last character of a message is lost when it straddles the end of a batch, since the outer loop of the encoder ends once
  it has taken that character, and a closing NUL also when it straddles the end of a word
  (`PocsagPage.PageRoundTrip`, `PocsagLost.ShortMessageSplit`); and function 0 at eight addresses
  encodes to the idle word, so that those pages, and no others, are lost whole (`PocsagLost.PageTakenIff`).
- Mode S: one flip of the length bit can turn a good long frame into a good short one (`AdsbParity.ShortenedPasses`,
  `AdsbParity.ShortenedFrame`); bursts of up to 24 bits that leave the length bit alone are seen (`AdsbParity.BurstsAreSeen`).
- ADS-B: the encoder accepts altitudes its eleven bits cannot hold (`AdsbFrame.AltitudeRoundTrip`).
- Battleship: the comment at the placing rule says that no ship may touch another; a ship placed after a shot may
  (`Battleship.TouchesNoneIff`, `Battleship.LateShipTouches`). The app itself places all ships first.

## Model

| member | source | states |
|---|---|---|
| `Ax25Link.OneFrame` | src/apps/ui_aprs_rx.cpp:451-535 | For every frame of 16 to 253 octets, with at least one leading and one trailing flag, the levels the transmitter puts on the line make a reset decoder deliver exactly that frame with its check sequence, once, and leave both error counters at zero |
| `Ax25Link.ManyFrames` | src/apps/ui_aprs_rx.cpp:443-535 | Any list of such frames separated by single shared flags is delivered exactly and in order, with no error counted |
| `Ax25Link.TwoFlagsResynchronise` | src/apps/ui_aprs_rx.cpp:443-535 | From every state that a run can reach, two consecutive flags leave the decoder waiting for a frame with an empty buffer, and every frame of the stream behind them is delivered |
| `Ax25Link.OneFlagFromAnywhere` | src/apps/ui_aprs_rx.cpp:443-535 | One flag alone brings a decoder back from every reachable state except one with a full buffer, which then waits for a flag |
| `Ax25Link.ReceiverInvertsTransmitter` | src/apps/ui_aprs_rx.cpp:482-535 | The bit-level decoder run over stuffed, NRZI-coded levels follows the item-level receiver step by step, for any list of flags and octets whatever, overlong and damaged frames included; the two counters of ones stay aligned |
| `Ax25Link.AnySegments` | src/apps/ui_aprs_rx.cpp:451-535 | Whatever octets stand between single flags: exactly the segments of 18 to 255 octets that check are delivered, in order; those of that length that do not check and those of one to 17 octets are counted, and longer ones leave no trace |
| `Ax25Link.AbortAbandons` | src/apps/ui_aprs_rx.cpp:482-495 | A line that stays for seven bits or more abandons a frame from any state whose buffer those bits do not fill: nothing is delivered or counted and the decoder waits for a flag |
| `Ax25Rx.EveryStreamIsSafe` | src/apps/ui_aprs_rx.cpp:434-535 | From a reset and in plain figures: over any bit stream every delivery has 18 to 255 octets and checks, and the buffer never holds more than 255 |
| `Ax25Rx.EveryRunIsSafe` | src/apps/ui_aprs_rx.cpp:443-535 | Over every bit stream whatsoever, each delivered frame has 18 to 255 octets and a valid check sequence, counters stay in range, the buffer never overflows and nothing delivered is taken back |
| `Ax25Rx.DecodedKeepsInv` | src/apps/ui_aprs_rx.cpp:451-535 | One decoded bit keeps the decoder's invariant from any state that satisfies it |
| `Ax25Rx.FrameIsValid` | src/apps/ui_aprs_rx.cpp:53-58 | Decides whether the register over a whole frame equals the residue; frames under two octets are refused |
| `Ax25Rx.FrameCheckSequence` | src/apps/ui_aprs_rx.cpp:47-51 | Computes CRC-16/X-25 over the octets |
| `Ax25Rx.Ax25Decoder.FeedBit` | src/apps/ui_aprs_rx.cpp:451-471 | The object's whole new state is one step of the decoder function: delivery, the two error counters and the buffer included |
| `Ax25Rx.Ax25Decoder.ParseBit` | src/apps/ui_aprs_rx.cpp:482-535 | NRZI decoding, flag, abort and stuffed-zero recognition change exactly the fields the decoder function changes, and report a closing flag |
| `Ax25Rx.Ax25Decoder.StoreBit` | src/apps/ui_aprs_rx.cpp:516-534 | A data bit enters at the top; every eighth one stores an octet or, with a full buffer, abandons the frame |
| `Ax25Rx.Ax25Decoder.AbortFrame` | src/apps/ui_aprs_rx.cpp:443-449 | Abandoning a frame clears what was assembled and keeps the counters |
| `Ax25Rx.Ax25Decoder.FeedBits` | src/apps/ui_aprs_rx.cpp:473-480 | Feeding a list is running the decoder function over it |
| `Ax25Rx.Ax25Decoder.Reset` | src/apps/ui_aprs_rx.cpp:434-441 | Clears the decode state; counters and deliveries survive |
| `Crc16.OwnFcsIsValid` | src/apps/ui_aprs_rx.cpp:33-58 | Any data followed by its own check sequence, low octet first, leaves the constant residue 0x1D0F |
| `Crc16.ValidIff` | src/apps/ui_aprs_rx.cpp:53-58 | A frame is taken if and only if it has two octets or more and ends with its own check sequence, low octet first |
| `Crc16.PresetComplements` | src/apps/ui_aprs_rx.cpp:33-51 | A register preset to ones leaves what plain division leaves of the same message with its first sixteen bits complemented, for every message of at least sixteen bits |
| `Crc16.FcsIsPlainDivision` | src/apps/ui_aprs_rx.cpp:47-51 | The check sequence without a preset: plain division of the message with its first sixteen bits complemented, reflected and complemented |
| `Crc16.ZeroInFrontIsSeen` | src/apps/ui_aprs_rx.cpp:33-58 | A zero octet put in front of any message, or dropped there, changes the check sequence, and of the two frames at most one is taken |
| `Crc16.PublishedCheck` | tests/test_aprs_tx.cpp:237-243 | Over the digits 1 to 9 the check sequence is 906E hex, the published check value of CRC-16/X-25 |
| `Crc16.BurstIsSeen` | src/apps/ui_aprs_rx.cpp:53-58 | Of two frames that differ only within sixteen bits in a row at most one is taken |
| `Crc16.Engine.ProcessByte` | src/dsp/protocol.hpp:92-114 | Processing an octet with reflected input is dividing its bits, least significant first |
| `AprsTx.AprsTxFrame.Build` | src/apps/ui_aprs_tx.cpp:210-243 | The bits are the line function over flags, the frame octets with their check sequence, and flags; the frame octets are the assembled ones |
| `AprsTx.AprsTxFrame.AddByte` | src/apps/ui_aprs_tx.cpp:70-90 | One octet extends the line by exactly its stuffed bits, and the frame and CRC only when it is data |
| `AprsTx.AprsTxFrame.AddBit` | src/apps/ui_aprs_tx.cpp:76-89 | One bit with a zero stuffed behind the fifth one of a run, unless it belongs to a flag |
| `AprsTx.AprsTxFrame.MakeExtendedField` | src/apps/ui_aprs_tx.cpp:95-106 | Every address octet goes out shifted left; only the last one of the last group carries the extension bit |
| `AprsTx.AprsTxFrame.AddChecksum` | src/apps/ui_aprs_tx.cpp:108-112 | The check sequence of the frame octets goes out low octet first and is not part of the frame octets |
| `AprsTx.BuildAddress` | src/apps/ui_aprs_tx.cpp:114-128 | Fourteen octets: both callsigns cut or padded to six, each with its SSID octet |
| `AprsTx.FixPath` | src/apps/ui_aprs_tx.cpp:130-172 | The character walk computes the packed path of the C string for any text, malformed elements included |
| `AprsTx.FixElement` | src/apps/ui_aprs_tx.cpp:138-168 | One element of the walk: callsign in upper case, SSID, and on behind the next comma; an SSID over 15 drops the element |
| `AprsRoundTrip.FormToConsole` | src/apps/ui_aprs_tx.cpp:210-243 | From the transmit form to the receive console: the built levels make a reset decoder deliver one frame, and its stream text is SRC[-n]>DEST[-n][,HOP-n...]:payload, for callsigns of one to six seven-bit characters other than space, all SSIDs, canonical paths with any SSIDs (hops over 15 are left out, and the whole path where more than nine are left) and any payload within the size limit |
| `AprsRoundTrip.PrinterInvertsBuilder` | src/apps/ui_aprs_rx.cpp:98-201 | The printed line of a built frame is the operator's line, whatever two octets stand in the check field, and the text starts behind two addresses and the digipeaters |
| `AprsRoundTrip.AddressBack` | src/apps/ui_aprs_rx.cpp:98-132 | The printed address is the low seven bits of the callsign's characters without their spaces, and the SSID; so it is the callsign exactly for seven-bit characters without a space |
| `AprsRoundTrip.FixPathInvertsPathText` | src/apps/ui_aprs_tx.cpp:130-172 | Parsing the canonical text of any list of hops gives back exactly the hops with an SSID of at most 15, whatever number is written |
| `AprsPath.CaseDoesNotMatter` | src/apps/ui_aprs_tx.cpp:130-172 | Any text whatever packs to the same path as that text with its letters in upper case |
| `AprsPath.FixedPathIsGroups` | src/apps/ui_aprs_tx.cpp:130-172 | Any text whatever packs to whole groups of seven octets without a lower-case letter in a callsign; the frame carries them exactly when there are one to nine |
| `AprsRoundTrip.OctetsOfAddress` | src/apps/ui_aprs_tx.cpp:114-128 | An address as it stands on the air: six characters shifted left with spaces behind, then the SSID octet with its two set bits and the extension mark |
| `AprsRoundTrip.SsidIsNumber` | src/apps/ui_aprs_rx.cpp:112-112 | For all 256 octets the SSID is the octet divided by two, modulo sixteen |
| `AprsRoundTrip.AddressIgnores` | src/apps/ui_aprs_rx.cpp:98-132 | On any octets whatever, the text of an address and its extension bit do not depend on the three other bits of its last octet |
| `AprsRoundTrip.ReservedBitsIgnored` | src/apps/ui_aprs_rx.cpp:98-201 | On any octets whatever, the printed line does not change when the repeated bit or the reserved bits of any SSID octets do |
| `AprsRoundTrip.RepeatedFrameIsPrinted` | src/apps/ui_aprs_rx.cpp:98-201 | A built frame is printed the same when digipeaters have set any of those bits on its way |
| `AprsRx.WalkStaysInside` | src/apps/ui_aprs_rx.cpp:146-178 | On arbitrary received octets every digipeater the walk goes past lies in front of the check sequence |
| `AprsRx.AprsPacket.ParseAddress` | src/apps/ui_aprs_rx.cpp:98-132 | Reads at most seven octets in front of the check sequence; reports the extension bit only when the seventh was there |
| `AprsRx.AprsPacket.GetDigipeatersFormatted` | src/apps/ui_aprs_rx.cpp:146-163 | The walk terminates on any packet and lists the digipeaters with commas |
| `AprsRx.AprsPacket.GetNumberOfDigipeaters` | src/apps/ui_aprs_rx.cpp:165-178 | The walk terminates on any packet and counts the digipeaters |
| `AprsRx.AprsPacket.GetInformationTextFormatted` | src/apps/ui_aprs_rx.cpp:185-195 | The octets between the header and the check sequence, nothing if there are none |
| `AprsRx.AprsPacket.GetStreamText` | src/apps/ui_aprs_rx.cpp:197-201 | Source, destination, digipeaters and text of any packet as one line |
| `Ais.CrcOkIffItFits` | src/apps/ais_app.cpp:196-209 | The receiver's non-reflected CRC over bit-reversed octets accepts the built packet, signed by the reflected CRC, if and only if the payload has 1 to 317 octets: a 2560-bit packet cuts longer ones off |
| `Ais.DestuffInvertsStuff` | src/apps/ais_app.cpp:65-102 | Destuffing inverts stuffing for every list of bits |
| `Ais.NoSixOnes` | src/apps/ais_app.cpp:65-83 | A stuffed list never holds six ones in a row |
| `Ais.DecoderInvertsEncoder` | src/apps/ais_app.cpp:45-61 | NRZI decoding inverts NRZI encoding |
| `Ais.EncoderInvertsDecoder` | src/apps/ais_app.cpp:45-61 | NRZI encoding inverts NRZI decoding |
| `Ais.HighBehindOddZeros` | src/apps/ais_app.cpp:45-61 | The encoded line is high exactly behind an odd number of zeros |
| `Ais.CheckBitsReflect` | src/apps/ais_app.cpp:196-209 | A check sequence sent least significant bit first and read most significant bit first comes out reflected, which undoes the reflection in its definition |
| `Ais.HdlcStuff` | src/apps/ais_app.cpp:65-83 | The loop with its running counter computes the stuffing function |
| `Ais.HdlcDestuff` | src/apps/ais_app.cpp:85-102 | The loop drops exactly the zeros behind five ones |
| `Ais.BuildPacketBits` | src/apps/ais_app.cpp:409-438 | Payload and check sequence, each least significant bit first, and seven bits of the flag |
| `Ais.PacketCrcOk` | src/apps/ais_app.cpp:196-209 | The packet reader's check, empty and ragged packets refused |
| `Ais.FromBits` | src/apps/ais_app.cpp:165-170 | A packet keeps the first 2560 bits and drops the rest |
| `AisAir.TransmissionsComeBack` | src/dsp/protocol.hpp:568-589 | From the air to the packets: any list of transmissions, each of at most 317 octets behind ten or more training bits of an even count, is NRZI-decoded, found, unstuffed and handed over as exactly its packets, in order, none cut short |
| `AisAir.EveryPayloadChecks` | src/apps/ais_app.cpp:196-209 | Of those packets exactly the ones that carry at least one octet pass the reader's check |
| `AisAir.StartFound` | src/apps/ais_app.cpp:462-466 | The start is found at the end of the flag and nowhere before it, although one wrong bit of sixteen is allowed |
| `AisAir.StartWithWrongBit` | src/dsp/protocol.hpp:234-245 | With one bit of the flag wrong the start is still found at its end and nowhere before, unless it is the first or the sixth bit: then it is found two bits early |
| `AisAir.OverlongIsDropped` | src/dsp/protocol.hpp:577-588 | The 2560th bit kept ends a packet that no flag has ended: counted as cut short, not handed over |
| `AisAir.FrameRun` | src/dsp/protocol.hpp:576-588 | Behind the start the stuffed bits of a frame up to 2552 bits and the flag come out as one packet, the bits and seven of the flag's |
| `AisAir.PacketBuilder.TakeBit` | src/dsp/protocol.hpp:568-589 | One symbol changes the object exactly as the step function says: start, unstuffing, end, and the cut at 2560 bits |
| `AisAir.BuildAirBits` | src/apps/ais_app.cpp:440-458 | Training bits, flag, stuffed payload and check sequence, and flag, NRZI-coded together |
| `BleCrc.TableRefinesRegister` | src/apps/ui_ble_rx.cpp:63-70 | For every octet string and every starting value the table register stays the mirror image of the transmitter's 24-stage shift register fed the same octets least significant bit first |
| `BleCrc.EntryIsEightClocks` | src/apps/ui_ble_rx.cpp:29-61 | Each of the 256 table entries is eight steps of the register |
| `BleCrc.TableStepIsOctet` | src/apps/ui_ble_rx.cpp:63-70 | One table step is eight register steps over the octet's bits |
| `BleCrc.ShowsStep` | src/apps/ui_ble_tx.cpp:134-149 | The transmitter's stages and the receiver's word stay mirror images through one bit |
| `BleCrc.BothEndsAgree` | src/apps/ui_ble_tx.cpp:124-155 | The 24 bits the transmitter sends are the receiver's word read from its lowest bit |
| `BleCrc.PresetIsData` | src/apps/ui_ble_tx.cpp:124-155 | A preset register is an empty one fed the same bits with the first 24 changed by the preset, last stage first |
| `BleCrc.ReorderedShows` | src/apps/ui_ble_rx.cpp:72-86 | The reordered preset is the mirror image of the transmitter's preset stages, for all 24-bit values |
| `BleCrc.CrcInitReorder` | src/apps/ui_ble_rx.cpp:72-86 | The octet swap and the bit loop compute the reordered preset |
| `BleCrc.SerialCrc` | src/apps/ui_ble_tx.cpp:124-155 | The array loop computes the shift register over the bits and reads it out backwards |
| `BleCrc.TableCrc` | src/apps/ui_ble_rx.cpp:63-70 | The loop computes the table register over the octets |
| `BleLink.ParserInvertsBuilder` | src/apps/ui_ble_rx.cpp:185-223 | For every address of twelve hex digits, data of 0 to 31 octets, PDU type and channel, the built bits behind the access address, with anything behind them, are accepted and give the same type, length, address in display order, data and channel, with equal check sequences |
| `BleLink.AccessAddressFound` | src/apps/ui_ble_rx.cpp:237-243 | Whatever came before, the transmitted access address leaves the receiver's register at the word it looks for |
| `BleLink.AcceptedIff` | src/apps/ui_ble_rx.cpp:185-223 | The receiver accepts exactly the bits that begin, dewhitened, with a PDU of six to 37 octets of payload and the transmitter's check bits for it |
| `BleLink.ValidIsAccepted` | src/apps/ui_ble_rx.cpp:185-223 | Of such a PDU it reports type, payload length, address in display order, data and channel as they stand in it |
| `BleLink.FirstOctet` | src/apps/ui_ble_tx.cpp:65-91 | The first octet on the air: type, two clear bits and the two address kinds, the second of which a scan response always sets |
| `BleLink.AddressTextBack` | src/apps/ui_ble_rx.cpp:124-131 | The address shown is the address entered, in upper case with colons |
| `BleLink.HeaderBack` | src/apps/ui_ble_tx.cpp:65-91 | Type and length of every header come back from its two octets |
| `BleLink.PackInvertsSend` | src/apps/ui_ble_rx.cpp:189-192 | Octets sent least significant bit first are packed back, with anything behind them |
| `BleTx.WhitenTwice` | src/apps/ui_ble_tx.cpp:93-118 | Whitening twice on one channel changes nothing |
| `BleTx.WhitenPrefix` | src/apps/ui_ble_tx.cpp:93-118 | What follows does not affect the whitening of what came before |
| `BleTx.KeyRecurs` | src/apps/ui_ble_tx.cpp:93-118 | The keystream's law: bit n + 7 is the sum of bits n and n + 4, for every n and every channel |
| `BleTx.KeyStarts` | src/apps/ui_ble_tx.cpp:93-118 | The first seven bits of the keystream come from the channel number: its bits 0 to 2, bits 3 to 5 changed by those, and the opposite of the fourth |
| `BleTx.WhitensByKey` | src/apps/ui_ble_tx.cpp:93-118 | Every whitened bit is the bit changed by the keystream alone, whatever the other bits are |
| `BleTx.CrcIsPlainDivision` | src/apps/ui_ble_tx.cpp:124-155 | The check bits are plain division of the PDU with every second one of its first 24 bits turned, read out from the last stage on |
| `BleTx.SentIff` | src/apps/ui_ble_tx.cpp:34-63 | A packet is sent exactly when its address has twelve hex digits and its data is empty text or one to 31 pairs of them, whatever other characters stand between |
| `BleTx.LeadIsSent` | src/apps/ui_ble_tx.cpp:157-182 | Every packet begins with AA and the access address D6 BE 89 8E, least significant bits first |
| `BleTx.Whiten` | src/apps/ui_ble_tx.cpp:93-118 | The seven-stage array loop computes the whitening function |
| `BleTx.HexToBits` | src/apps/ui_ble_tx.cpp:34-63 | Hex text to bits, with the refusals for odd, short and long text and the octet flip |
| `BleTx.FlipPairs` | src/apps/ui_ble_tx.cpp:44-52 | Flipping the digit pairs in place reverses the octets |
| `BleTx.BuildInfoBits` | src/apps/ui_ble_tx.cpp:157-182 | Preamble, access address, header, address and data; nothing for invalid input |
| `BleTx.BuildPhyBits` | src/apps/ui_ble_tx.cpp:184-204 | CRC and whitening over everything behind the access address |
| `BleRx.Decoder.TryParse` | src/apps/ui_ble_rx.cpp:185-223 | Delivers exactly the packet the receive function accepts, else refuses and changes nothing |
| `BleRx.Pack` | src/apps/ui_ble_rx.cpp:189-192 | The packing loop fills whole octets, least significant bit first |
| `BleRx.MacString` | src/apps/ui_ble_rx.cpp:124-131 | Six octets as upper-case pairs with colons |
| `PocsagEcc.CorrectsTwoErrors` | src/apps/pocsag_app.hpp:235-283 | For every codeword and every received word within two errors of it in bits 31 to 1, bit 0 arbitrary, the corrector's answer has the codeword's 21 information bits and the number of errors |
| `PocsagEcc.HopelessIsFar` | src/apps/pocsag_app.hpp:235-283 | An answer of 3 means no codeword is within distance two |
| `PocsagEcc.OthersAreNear` | src/apps/pocsag_app.hpp:235-283 | Any other answer comes from a codeword within distance two |
| `PocsagEcc.EccContainer.ErrorCorrect` | src/apps/pocsag_app.hpp:235-283 | The loop over the bits and the table lookup return the right answer in that sense for every 32-bit word |
| `PocsagEcc.EccContainer.SetupEcc` | src/apps/pocsag_app.hpp:310-365 | After the five filling loops the table names, for every syndrome of one or two errors, the pattern that makes it, and holds zero elsewhere; later loops overwrite nothing they should not |
| `PocsagEcc.EccContainer.Encode` | src/apps/pocsag_app.hpp:293-307 | Fills in check bits and parity from the same table of columns |
| `PocsagEcc.EncodedIsCodeword` | src/apps/pocsag_app.hpp:293-307 | An encoded word keeps the information bits, has a clean syndrome and even parity |
| `PocsagEcc.OnlyEncoded` | src/apps/pocsag_app.hpp:293-307 | It is the only one: a clean word of even parity is what its information bits encode to |
| `PocsagEcc.ErrorPattern` | src/apps/pocsag_app.hpp:235-283 | Syndromes are linear: words that differ in at most two positions differ in syndrome by those positions' columns |
| `PocsagCode.PatternsDiffer` | src/apps/pocsag_app.hpp:310-365 | Every error pattern of weight one or two has a syndrome of its own, never the clean one |
| `PocsagCode.PairsDiffer` | src/apps/pocsag_app.hpp:310-365 | Two errors are told from any other two errors |
| `PocsagCode.SumOfPowers` | src/apps/pocsag_app.hpp:310-365 | The sum of two powers of x is a power of x, modulo either factor of the generator |
| `PocsagCode.ColIsPower` | src/apps/pocsag_app.hpp:310-321 | Column p of the code is the power 30 - p of x, modulo either factor |
| `PocsagCode.NextDivides` | src/apps/pocsag_app.hpp:315-320 | A step of the generator's shift register divides by x |
| `PocsagPage.PageRoundTrip` | src/apps/pocsag_app.hpp:759-860 | For every message of any octets, function and address whose word is not the idle word, whatever the heuristic says: with up to two errors among bits 30 to 11 of each word, or any damage beyond correction in any message words, the decoder recovers address and function; character i shows as ? exactly when one of its seven bits came from a word beyond correction, and otherwise as the low seven bits sent, a dot for a control character; behind the message come only dots; and a last character is lost exactly when it straddles the end of a batch, or the end of any word if it is a NUL |
| `PocsagPage.PageComesBack` | src/apps/pocsag_app.hpp:759-860 | Where every word can be corrected that is the message as seen, followed only by dots, but for a split last character |
| `PocsagPage.UncorrectableIff` | src/apps/pocsag_app.hpp:235-283 | The corrector answers 3 exactly to the words more than two errors from every codeword |
| `PocsagNumeric.NumericPageIsHeard` | src/apps/pocsag_app.hpp:832-860 | The numeric page round trip: once the heuristic takes the digits for numeric, and with up to two errors in each word, the decoder holds address, function and each digit of the whole message as shown, with spaces to a multiple of five, cut at eighty |
| `PocsagLost.PageTakenIff` | src/apps/pocsag_app.hpp:535-728 | For every message, address and function, with that noise and damage: the page is taken (address and function held, message shown in that sense) if and only if it is not function 0 at one of the eight addresses from 0x1EA270 on; there, the decoder shows nothing and still holds what it held, so that only an empty message for the page already held counts as taken |
| `PocsagLost.PageIsLost` | src/apps/pocsag_app.hpp:569-594 | A page whose address word is the idle word shows nothing, opens no page and leaves address and function alone, with noise and damaged message words |
| `PocsagLost.TakesPassedOver` | src/apps/pocsag_app.hpp:570-594 | Between pages a noisy idle word or message word changes only the word index and the output type |
| `PocsagLost.IdleAddressHearsNothing` | src/apps/pocsag_app.hpp:774-777 | An instance: no message with function 0 reaches the pager at 0x1EA270, without a single bit error |
| `PocsagLost.ShortMessageSplit` | src/apps/pocsag_app.hpp:858-859 | An instance of the split: of ABC sent to address 7 without errors the decoder shows AB |
| `PocsagPage.AddressableIff` | src/apps/pocsag_app.hpp:774-777 | The address word is the idle word exactly for function 0 at the eight addresses from 0x1EA270 on |
| `PocsagAir.PageThroughTheAir` | src/apps/pocsag_app.hpp:1226-1305 | From the air to the pager: with up to six wrong bits in any 32 of preamble and first sync word, two in each sync word, two among bits 30 to 11 of each word and any damage in message words, the extractor hands over exactly the batches, upright, and the decoder takes the page exactly when its address is not an idle one |
| `PocsagAir.EncodedPageComesOut` | src/apps/pocsag_app.hpp:759-860 | The encoder's own words, sent bit by bit, come out of the extractor as exactly its batches, and their complement as the same batches inverted |
| `PocsagAir.BatchesComeOut` | src/apps/pocsag_app.hpp:1226-1305 | Whatever words the batches hold, even sync words, they come out in order and nothing else does |
| `PocsagAir.HeadRun` | src/apps/pocsag_app.hpp:1234-1241 | The extractor gets sync at the end of the first sync word and nowhere before it, in either polarity |
| `PocsagAir.AllFar` | src/apps/pocsag_app.hpp:1236-1239 | Every window of the preamble, and of the preamble with part of the sync word, differs from the sync word in 9 to 23 bits |
| `PocsagAir.BatchRun` | src/apps/pocsag_app.hpp:1243-1245 | Behind a sync word sixteen words of 32 fresh bits each are one batch, and the extractor is as at the start |
| `PocsagPage.PageIsHeard` | src/apps/pocsag_app.hpp:535-728 | What is heard of a noisy page is the characters sent in full |
| `PocsagPage.MessageStep` | src/apps/pocsag_app.hpp:801-828 | The seven-bit packing of the encoder and the unpacking of the decoder stay in step through a message word, in each of the seven phases |
| `PocsagPage.PageRun` | src/apps/pocsag_app.hpp:535-728 | From any point inside a page to the end of the batch or the idle word that ends the page |
| `PocsagPage.HeardExactly` | src/apps/pocsag_app.hpp:235-283 | A noisy codeword is heard exactly, and as the same kind of word |
| `PocsagPage.IdleIsCodeword` | src/apps/pocsag_app.hpp:235-283 | The idle word is a codeword and looks like an address word |
| `PocsagPage.AddressBack` | src/apps/pocsag_app.hpp:774-777 | The address word in its frame gives back address and function |
| `PocsagRx.LoopedKeeps` | src/apps/pocsag_app.hpp:535-728 | Every call keeps the bounds (at most 80 nibbles, at most 80 digits, fewer than 7 pending bits), never moves backwards, and a call that asks to be called again has used up some of the measure |
| `PocsagRx.TakenKeeps` | src/apps/pocsag_app.hpp:563-709 | One codeword keeps the bounds; stopping in front of it means a page was closed, going on means it was used up |
| `PocsagRx.PocsagDecoder.DecodeBatch` | src/apps/pocsag_app.hpp:535-728 | One call computes the call function on the state, and asks for another only with a smaller measure |
| `PocsagRx.PocsagDecoder.HandlePacket` | src/apps/pocsag_app.cpp:294-306 | The caller's loop terminates and ends in the last state of the calls |
| `PocsagRx.PocsagDecoder.Take` | src/apps/pocsag_app.hpp:563-709 | One codeword: corrected, searched for an address, or taken as message |
| `PocsagRx.PocsagDecoder.Unpack` | src/apps/pocsag_app.hpp:658-688 | The character loop of a message word, straddling characters included |
| `PocsagRx.PocsagDecoder.TakeMessage` | src/apps/pocsag_app.hpp:641-702 | A message word adds its nibbles and characters to the state |
| `PocsagRx.PocsagDecoder.Settle` | src/apps/pocsag_app.hpp:713-725 | The type is decided once, from any verdict |
| `PocsagTx.Encoder.EncodeAlpha` | src/apps/pocsag_app.hpp:759-860 | The loops put out preamble, sync words and batches of the encoder function for any message, function and address |
| `PocsagTx.Encoder.EncodeTone` | src/apps/pocsag_app.hpp:774-789 | A page without a message is one batch |
| `PocsagTx.TonePageIsEmptyPage` | src/apps/pocsag_app.hpp:774-789 | A page without a message is sent as a page with an empty one |
| `PocsagTx.Encoder.EncodeNumeric` | src/apps/pocsag_app.hpp:759-860 | The loops put out preamble, sync words and the digit batches of the encoder function for any text |
| `PocsagTx.Encoder.NumericSlot` | src/apps/pocsag_app.hpp:832-852 | One slot of a numeric message: five digit codes, spaces behind the text, or the idle word |
| `PocsagTx.Encoder.EncodeSlot` | src/apps/pocsag_app.hpp:800-831 | One slot of the message loop: the packed word or the idle word, and the bits left over |
| `PocsagTx.ReverseMirrors` | src/apps/pocsag_app.hpp:809-811 | The three swaps turn a seven-bit character round: bit i becomes bit 6 - i |
| `PocsagTx.Encoder.MessageSlots` | src/apps/pocsag_app.hpp:798-856 | The slots up to the end of a batch |
| `PocsagFraming.PolaritySymmetry` | src/apps/pocsag_app.hpp:1226-1305 | On the complement of any bit stream the word extractor emits the same batches after the same bits, with the polarity flipped |
| `PocsagFraming.ComplementCounts` | src/apps/pocsag_app.hpp:1025-1033 | The distances to a word and to its complement add up to 32, so the two sync tests exclude each other |
| `PocsagFraming.DiffBitCount` | src/apps/pocsag_app.hpp:1025-1033 | The bit-clearing loop counts the positions at which two words differ |
| `PocsagFraming.DroppedCount` | src/apps/pocsag_app.hpp:1028-1031 | Clearing the lowest set bit takes one from the count |
| `PocsagFraming.BitQueue.Push` | src/apps/pocsag_app.hpp:1000-1003 | Appends a bit to a queue kept in one 32-bit word; a full queue loses its oldest bit |
| `PocsagFraming.BitQueue.Pop` | src/apps/pocsag_app.hpp:1005-1009 | Takes the oldest bit; an empty queue gives a zero |
| `PocsagFraming.CodewordExtractor.TakeOne` | src/apps/pocsag_app.hpp:1226-1247 | One bit: 32 fresh ones between any two comparisons, sync in either polarity, words, batches |
| `PocsagFraming.CodewordExtractor.ProcessBits` | src/apps/pocsag_app.hpp:1226-1247 | Takes everything in the queue, oldest first, and leaves it empty |
| `PocsagFraming.CodewordExtractor.Flush` | src/apps/pocsag_app.hpp:1250-1254 | A pending batch is padded with idle words and emitted and sync is dropped; the bits of an unfinished word stay |
| `PocsagFraming.AudioDecoder.Process` | src/apps/pocsag_app.hpp:1383-1394 | The 16-sample cadence loses no bit: for a block of any length the extractor runs over exactly the decided bits, in order |
| `AdsbAir.PositionThroughTheAir` | src/apps/ui_adsb_tx.cpp:78-115 | The even and odd frame of a position, keyed at any amplitudes, are demodulated as exactly those two frames, both pass the parity check and name the aircraft and their parity, and decoding them gives the latitude within half a quantum and, when the zone counts agree, the longitude within half a quantum of its zone modulo whole turns |
| `AdsbAir.FrameSays` | src/apps/ui_adsb_rx.cpp:123-134 | Aircraft address, format, type, parity, coordinates and altitude of a received position frame are the ones it was made of |
| `AdsbTrack.PositionIsTracked` | src/apps/ui_adsb_rx.cpp:640-657 | Any two frames of one aircraft's position, one of each parity, in either order and with any entries before them: less than twenty seconds apart they leave the pair's fix and the newer frame's altitude in the entry, else the second changes no place; no other aircraft is touched |
| `AdsbTrack.PositionIsCredited` | src/apps/ui_adsb_rx.cpp:788-853 | A position frame with a good parity goes to the aircraft whose address it was built with and to no other |
| `AdsbTrack.TypeDecides` | src/apps/ui_adsb_rx.cpp:835-870 | Of an aircraft's messages with a good parity, types 9 to 18 and 20 to 22 are stored as position frames; the others but type 0 leave its position alone |
| `AdsbTrack.BareAltitudeIsTracked` | src/apps/ui_adsb_rx.cpp:840-848 | A message of type 0 gives an altitude and changes nothing else; an address of zero is refused |
| `AdsbTrack.ReplyIsCredited` | src/apps/ui_adsb_rx.cpp:789-802 | A reply with an aircraft's address over its parity goes to that aircraft if it is known, and is refused otherwise |
| `AdsbTrack.ReplyIsTracked` | src/apps/ui_adsb_rx.cpp:872-880 | An altitude reply (formats 0, 4, 20) sets the altitude of that aircraft to 25 feet a step, keeps the old one for a metric or Gillham count, and touches no fix, stored frame or other aircraft |
| `AdsbTrack.Ac13Back` | src/apps/ui_adsb_rx.cpp:136-155 | Every count of steps is read back from where its bits stand around the metric and the Q bit, and no altitude is read when the count is metric or Gillham's |
| `AdsbTrack.AircraftTracker.HandleFrame` | src/apps/ui_adsb_rx.cpp:780-880 | The object after a frame: refused or credited, counted, and the entry's position and altitude updated |
| `AdsbCpr.PositionRoundTrip` | src/apps/ui_adsb_rx.cpp:172-248 | For every latitude in [-90, 90], every longitude and NL any function into 1..59: there is no fix exactly when the two zone counts differ, else latitude is within half a quantum (6/2^18 or (360/59)/2^18 degrees) and longitude within 360/(ni*2^18) degrees modulo 360 |
| `AdsbCpr.ZoneIndexIsExact` | src/apps/ui_adsb_rx.cpp:205-211 | The latitude zone index is exact, also when a quantised fraction wraps to zero |
| `AdsbCpr.LatitudeBack` | src/apps/ui_adsb_rx.cpp:210-216 | The decoded latitude is the encoder's own, from either frame |
| `AdsbCpr.LatitudeError` | src/apps/ui_adsb_tx.cpp:92-95 | The encoder's latitude is within half a quantum of the true one |
| `AdsbCpr.LongitudeIndexIsExact` | src/apps/ui_adsb_rx.cpp:225-241 | The longitude zone index is exact for every number of zones from 2 to 59 |
| `AdsbCpr.LongitudeFromIndex` | src/apps/ui_adsb_rx.cpp:225-243 | Any zone index congruent to the true one gives the longitude back, in [-180, 180) |
| `AdsbFrame.FieldsBack` | src/apps/ui_adsb_rx.cpp:191-203 | The two 17-bit coordinates come back from the packed octets, whatever the altitude |
| `AdsbFrame.HeaderBack` | src/apps/ui_adsb_rx.hpp:186-197 | The receiver's accessors read from the packed octets format 17, the aircraft's 24-bit address, type 11 and the parity, whatever the altitude and coordinates |
| `AdsbFrame.AltitudeRoundTrip` | src/apps/ui_adsb_rx.cpp:123-134 | The altitude comes back rounded down to its 25-foot step if and only if it is in -1000..50199 feet; the encoder accepts any |
| `AdsbFrame.AltitudeBack` | src/apps/ui_adsb_tx.cpp:83-85 | Whatever the altitude, what comes back counts its steps modulo 2048 |
| `AdsbFrame.AltitudeWraps` | src/apps/ui_adsb_tx.cpp:83-85 | In feet, for every 32-bit altitude: whole steps from -1000 up, cut towards zero on either side, and around modulo 51200 feet |
| `AdsbFrame.PositionFrameIsGood` | src/apps/ui_adsb_tx.cpp:78-115 | A built position frame is a long one, passes the parity check and starts with the packed octets |
| `AdsbFrame.Frame.PushByte` | src/apps/ui_adsb_rx.hpp:213-216 | Appends at the cursor; a full frame ignores it |
| `AdsbFrame.Frame.Clear` | src/apps/ui_adsb_rx.hpp:208-211 | Rewinds the cursor and zeroes the octets |
| `AdsbFrame.Frame.MakeCrc` | src/apps/ui_adsb_rx.cpp:44-53 | The parity of the data goes behind it, the cursor never moves back, and the syndrome is then zero |
| `AdsbFrame.Frame.CheckCrc` | src/apps/ui_adsb_rx.cpp:55-64 | Returns the syndrome |
| `AdsbFrame.Frame.EncodePos` | src/apps/ui_adsb_tx.cpp:78-115 | Clears the frame and leaves the whole position frame in it, parity included |
| `AdsbParity.BurstsAreSeen` | src/apps/ui_adsb_rx.hpp:227-233 | A frame that passes and is then hit by a burst of up to 24 bits anywhere in data or parity passes again if and only if the burst changed nothing, provided the length bit still says the same |
| `AdsbParity.DamagedPasses` | src/apps/ui_adsb_rx.hpp:199-203 | A damaged frame passes, whatever length it now claims, exactly when the bits sent within that length and the error leave the same remainder |
| `AdsbParity.ShortenedPasses` | src/apps/ui_adsb_rx.hpp:199-203 | The one flip that turns a long frame into a short one passes exactly when the first 56 bits sent leave the remainder of that bit alone |
| `AdsbParity.ShortenedFrame` | src/apps/ui_adsb_rx.hpp:199-203 | There is such a frame: zeros but for the first bit |
| `AdsbParity.PassesIff` | src/apps/ui_adsb_rx.hpp:227-233 | A damaged frame of unchanged length passes exactly when the error pattern itself is divisible by the polynomial |
| `AdsbParity.SyndromeIsOverlay` | src/apps/ui_adsb_rx.hpp:224-233 | The syndrome of a frame is what was laid over its parity: zero for make_CRC's frames, the transponder's address in the address-parity formats |
| `AdsbParity.SyndromeIsDivision` | src/apps/ui_adsb_rx.cpp:55-64 | The syndrome is zero exactly when data and parity together are divisible |
| `AdsbParity.RunLinear` | src/dsp/protocol.hpp:92-97 | The division is linear in register and bits |
| `AdsbParity.GeneratorDivides` | tests/test_adsb.cpp:281-287 | The generator: behind 01 the octets FF F4 09, and no other three, leave no remainder |
| `AdsbParity.ModeSCrc` | src/apps/ui_adsb_rx.cpp:35-42 | The octet loop computes the remainder |
| `AdsbIdent.CallsignBack` | src/apps/ui_adsb_rx.cpp:103-121 | For every callsign the receiver shows its first eight characters, with a space for each missing one and for each that is neither capital letter, digit nor the mark |
| `AdsbIdent.EightThroughSix` | src/apps/ui_adsb_tx.cpp:55-76 | Eight six-bit characters through six octets: nothing overlaps and nothing is lost |
| `AdsbIdent.PackedInOrder` | src/apps/ui_adsb_tx.cpp:69-73 | The six octets are the eight codes one behind the other, highest bits first, octet by octet |
| `AdsbIdent.CodeIsStandard` | src/apps/ui_adsb_rx.hpp:169-170 | The table search sends letters as 1 to 26, digits as 48 to 57, the mark as 0 and everything else as 32 |
| `AdsbIdent.EncodeId` | src/apps/ui_adsb_tx.cpp:55-76 | The table search and packing loops produce the octets that decode to the shown callsign |
| `AdsbIdent.DecodeId` | src/apps/ui_adsb_rx.cpp:103-121 | The unpacking loops read the eight characters |
| `AdsbIdent.SquawkBack` | src/apps/ui_adsb_tx.cpp:140-155 | The interleaved identity field gives back the four octal digits of every squawk |
| `AdsbIdent.AroundTheSquawk` | src/apps/ui_adsb_tx.cpp:147-152 | The three bits in front of the digits are those of the utility message, and the spare bit between them is clear |
| `AdsbIdent.DecodeSquawk` | src/apps/ui_adsb_rx.cpp:157-170 | The four octal digits read as a decimal number |
| `AdsbLink.DemodulatorInvertsWaveform` | src/apps/ui_adsb_rx.cpp:538-615 | For every list of long or short frames, each sent as preamble and Manchester chips at one positive amplitude and followed by at least 16 silent samples, exactly those frames are emitted in order, each with four times its amplitude; no data pattern locks falsely or restarts |
| `AdsbLink.BurstRun` | src/apps/ui_adsb_rx.cpp:538-615 | One burst from an idle demodulator: one frame out, idle again |
| `AdsbLink.StrongerWins` | src/apps/ui_adsb_rx.cpp:569-612 | From any state behind silence, in the middle of another frame included: a burst whose four pulses outweigh the strength held is emitted once and whole, behind at most what the frame in hand had |
| `AdsbLink.WeakerIsPassedOver` | src/apps/ui_adsb_rx.cpp:569-612 | A preamble no stronger than the frame being decoded starts nothing: that frame is eight bits further and keeps its strength |
| `AdsbLink.PreambleLocks` | src/apps/ui_adsb_rx.cpp:571-612 | The whole preamble locks at four times its amplitude, and no part of it does |
| `AdsbLink.NoisyPreambleLocks` | src/apps/ui_adsb_rx.cpp:579-600 | A preamble locks in noise too: pulses of at least some level, the other samples up to the fourteenth below a noise level nine times which is less than four pulses |
| `AdsbLink.LoudGapRefuses` | src/apps/ui_adsb_rx.cpp:593-600 | No window locks with a fifth, sixth, twelfth, thirteenth or fourteenth sample of a ninth of the four pulses or more |
| `AdsbLink.TailNeverLocks` | src/apps/ui_adsb_rx.cpp:579-600 | Behind the data no window of data and silence locks |
| `AdsbLink.UnpackBitsMsb` | src/apps/ui_adsb_tx.cpp:39-44 | The bits of the octets, most significant first |
| `AdsbLink.ManchesterEncode` | src/dsp/protocol.cpp:124-136 | A one is high then low, a zero low then high |
| `AdsbLink.FrameWaveform` | src/apps/ui_adsb_tx.cpp:164-177 | Preamble chips as they are, then the Manchester chips of the frame |
| `AdsbDemod.Demodulator.ProcessOne` | src/apps/ui_adsb_rx.cpp:538-615 | One sample changes the object exactly as the step function says: decode, hand-over, window, lock and restart |
| `AdsbDemod.Demodulator.ProcessMagnitudes` | src/apps/ui_adsb_rx.cpp:534-536 | A list of samples is a run of the step function |
| `AdsbResample.MagnitudeResampler.Process` | src/apps/ui_adsb_rx.cpp:339-366 | Whatever was fed in whatever chunks, output k is the straight-line reading of the whole input at k steps; a bypassed converter passes samples through |
| `AdsbResample.MagnitudeResampler.ProcessOne` | src/apps/ui_adsb_rx.cpp:346-364 | One sample emits exactly the outputs that fall between it and its predecessor, and the inner loop terminates |
| `AdsbResample.MagnitudeResampler.SetRate` | src/apps/ui_adsb_rx.cpp:319-331 | Bypass exactly for rates that are not positive or within a hertz of each other |
| `AdsbResample.ChunksDoNotMatter` | src/apps/ui_adsb_rx.cpp:339-366 | Two converters that have had the same input have put out the same samples |
| `AdsbResample.OutputCount` | src/apps/ui_adsb_rx.cpp:339-366 | No drift: output k is there exactly when its position lies in front of the last input sample |
| `AdsbResample.OutputIsOnTheLine` | src/apps/ui_adsb_rx.cpp:346-364 | Output k lies on the straight line through the two inputs on either side of k steps, weighted by distance, and between them |
| `AdsbResample.WholeRatioSubsamples` | src/apps/ui_adsb_rx.hpp:289-299 | At a whole ratio n the converter puts out every n-th input and nothing else |
| `AcarsLink.BlocksComeBack` | src/apps/ui_acars_rx.hpp:380-487 | Any sequence of well-formed blocks, ended by a terminator or by DEL with up to four characters of wrong parity, sent in either bit order with any noise between them that holds no SYN, is emitted by a fresh decoder as exactly those blocks |
| `AcarsLink.BlockRun` | src/apps/ui_acars_rx.hpp:380-487 | One block behind any such noise: emitted once, as sent, with the count of its bad characters, and the decoder waits for the next |
| `AcarsLink.SynFound` | src/apps/ui_acars_rx.hpp:384-395 | The first SYN is found at whatever bit it begins |
| `AcarsLink.GivenUp` | src/apps/ui_acars_rx.hpp:420-464 | The fifth character of wrong parity ends a block without a trace, and so does the 241st that is neither terminator nor DEL |
| `AcarsLink.HeaderBroken` | src/apps/ui_acars_rx.hpp:397-418 | A second character that is no SYN, or a third that is no SOH, sends the decoder back to hunting |
| `AcarsLink.PublishedCheck` | tests/test_acars_rx.cpp:144-149 | Over the digits 1 to 9 the block check is 31C3 hex, the published check value |
| `AcarsLink.ParityIsOnes` | src/apps/ui_acars_rx.hpp:112-122 | The folding parity test holds exactly for an odd number of ones |
| `AcarsLink.ReceivedIsChecked` | src/apps/ui_acars_rx.hpp:179-205 | A received block is good exactly when it is long enough and its check octets are those of its text and terminator |
| `AcarsLink.BlockCheckIsDivision` | src/apps/ui_acars_rx.hpp:132-144 | The octet-wise loop is the remainder of the message by the CCITT polynomial, bit by bit |
| `AcarsLink.AcarsCrc16` | src/apps/ui_acars_rx.hpp:132-144 | The nested loop computes the block check |
| `AcarsLink.OctetRun` | src/apps/ui_acars_rx.hpp:328-335 | Eight bits in the configured order make their character, from every waiting state |
| `Acars.EveryRunIsBounded` | src/apps/ui_acars_rx.hpp:380-487 | Over every bit stream at most 241 characters and 4 parity errors are held, and every emitted block obeys the same bounds |
| `Acars.EveryStreamIsBounded` | src/apps/ui_acars_rx.hpp:293-303 | From a fresh decoder, over every bit stream, at most 241 characters and four bad ones are held and in every block handed over |
| `Acars.FeedKeepsInv` | src/apps/ui_acars_rx.hpp:380-487 | One bit keeps the bounds from any state that satisfies them |
| `Acars.AddedParity` | src/apps/ui_acars_rx.hpp:112-122 | An added parity bit makes the character odd and leaves the seven data bits, and turns 03 and 17 hex into the two terminators |
| `Acars.AcarsBitDecoder.FeedBit` | src/apps/ui_acars_rx.hpp:380-487 | One bit changes the object exactly as the step function says |
| `Acars.AcarsBitDecoder.Dispatch` | src/apps/ui_acars_rx.hpp:384-486 | The sequential tests, each seeing what the one in front left |
| `Acars.AcarsBitDecoder.TextChar` | src/apps/ui_acars_rx.hpp:420-464 | The text test with its parity limit, length limit, terminators and the DEL shortcut |
| `AnalogTv.LineFramer.Feed` | src/apps/ui_analog_tv.cpp:87-106 | Keeps the framer's state a function of everything fed so far and only adds to the emitted lines |
| `AnalogTv.NothingLost` | src/apps/ui_analog_tv.cpp:58-106 | After n lines exactly floor(n*spl) samples have been used; emitted lines and retained samples are the input without its first x_correction samples |
| `AnalogTv.ChunksDoNotMatter` | src/apps/ui_analog_tv.cpp:87-106 | The emitted lines and the state do not depend on how the input was cut into calls |
| `AnalogTv.CutStep` | src/apps/ui_analog_tv.cpp:74-85 | The fractional accumulator's next length is the difference of two exact cuts, and it stays in [0, 1) |
| `AnalogTv.LineFramer.CutLines` | src/apps/ui_analog_tv.cpp:99-105 | The loop emits every whole line there is |
| `AnalogTv.DetectHsync` | src/apps/ui_analog_tv.cpp:27-56 | The loop finds exactly the starts of the long enough runs, a run up to the end included |
| `AnalogTv.RunEnds` | src/apps/ui_analog_tv.cpp:37-53 | A run is an edge exactly when it is long enough |
| `Battleship.EveryRunAgrees` | src/apps/ui_battleship.hpp:123-255 | After every run of placements and shots: every record counts its ship's struck cells and is sunk exactly where its cells show it, ships do not overlap, the ship, hit and sunk cells are exactly the placed ships' cells, and defeat is a placed fleet with no ship cell left; if placements came first, no two ships touch |
| `Battleship.PlacingKeepsInv` | src/apps/ui_battleship.hpp:177-197 | Placing keeps the agreement; only a ship placed after a shot may touch another |
| `Battleship.ShotKeepsInv` | src/apps/ui_battleship.hpp:212-242 | A shot keeps the agreement |
| `Battleship.TouchesNoneIff` | src/apps/ui_battleship.hpp:142-175 | A placeable ship touches no other exactly when no struck cell is near it: the rule looks at unstruck ship cells only |
| `Battleship.LateShipTouches` | src/apps/ui_battleship.hpp:142-175 | Such a run: the second ship lies diagonally next to the struck end of the first |
| `Battleship.ShipCellHasShip` | src/apps/ui_battleship.hpp:226-227 | A ship cell always belongs to a placed ship, so the fallback for one without is unreachable |
| `Battleship.ShotUsesOneCell` | src/apps/ui_battleship.hpp:212-242 | A refused shot changes nothing; any other uses up exactly one cell nobody has fired at |
| `Battleship.ShotAnswer` | src/apps/ui_battleship.hpp:212-242 | The answer by the grid: invalid off the board and on a struck cell, miss on an empty one, sunk exactly where it was the ship's last unstruck cell and hit where it was not; only that cell changes, but for a sunk ship's |
| `Battleship.EveryShotAnswers` | src/apps/ui_battleship.hpp:212-242 | After every run of placements and shots the next shot is answered so, for ships of 5, 4, 3, 3 and 2 cells |
| `Battleship.RemainingIsAfloat` | src/apps/ui_battleship.hpp:244-251 | The ships remaining are those with a cell that nobody has struck |
| `Battleship.SunkIff` | src/apps/ui_battleship.hpp:229-241 | A ship is sunk exactly when all its cells show it, and exactly when none is still unstruck |
| `Battleship.DefeatedIff` | src/apps/ui_battleship.hpp:253-255 | Defeated exactly when a ship was placed and no cell shows a ship any more |
| `Battleship.Board.PlaceNextShip` | src/apps/ui_battleship.hpp:177-197 | The object after place_next: placed if the rule allows, else unchanged |
| `Battleship.Board.CanPlaceShip` | src/apps/ui_battleship.hpp:142-175 | The edge tests and neighbour loops decide the placing rule for any position, negative ones included |
| `Battleship.Board.ReceiveShotAt` | src/apps/ui_battleship.hpp:212-242 | The object after receive_shot, and the answer |
| `Battleship.Board.ShipIndexAt` | src/apps/ui_battleship.hpp:199-210 | The loops find the first placed ship on a cell, or none |
| `Battleship.Board.ShipsRemaining` | src/apps/ui_battleship.hpp:244-251 | Counts the placed ships that are not sunk |
| `Battleship.Board.IsDefeated` | src/apps/ui_battleship.hpp:253-255 | The answer is the grid's: a ship was placed and none shows |

## Left out

- Views, widgets, drawing, key handling, logging, settings and telemetry, and the radio, audio and thread plumbing.
- Signal processing in floating point (filters, discriminators, correlators, clock recovery, noise floor): the models begin at decided
  bits, magnitudes or normalised decisions.
- The rounding of `float` and `double`: CPR, the line framer, the rate converter and the demodulator's comparisons are over exact reals.
- PocsagFraming.AudioDecoder.Process: does not model when the rate clock decides a bit; each sample carries the decision, at most one a sample, and squelch and filtering in front of the loop are not modelled.
- PocsagRx.PocsagDecoder.Settle: does not model the scoring of a message as text or digits; the verdict is any function of what was collected.
- PocsagEcc.EccContainer.ErrorCorrect: does not model the closing test for a count of 4 nor the parity accumulator, because no table entry has that count and the accumulator is never read.
- PocsagRx.PocsagDecoder.HandlePacket: does not model the guard on the packet flag, which the extractor always leaves normal, nor what is written to the console.
- PocsagRx.PocsagDecoder.Take: does not model a decoder without a corrector, because the app always sets one.
- PocsagNumeric.NumericPageIsHeard: does not model message words beyond correction, because numeric decoding shows their digits as received.
- AdsbCpr.PositionRoundTrip: does not model the cosine formula for the number of longitude zones; it may be any function into 1..59.
- AdsbFrame.AltitudeRoundTrip: does not model the signed overflow of the encoder's addition for the 1000 highest 32-bit altitudes.
- Velocity frames (atan2 and hypot).
- AdsbIdent.EncodeId: does not model the frame around the callsign octets; header, type octet and parity are those of a position frame but for the type code.
- AdsbLink.FrameWaveform: does not model the on-off keying to complex samples; it ends at the chips, one magnitude a chip.
- AdsbDemod.Demodulator.ProcessOne: does not model the count of preambles seen, a statistic the demodulator itself never reads.
- AdsbTrack.AircraftTracker.HandleFrame: does not model what an entry keeps besides position and altitude (callsign, velocity, squawk, integrity level, hits, amplitude, age), the order of the list, the expiry of entries, or the log.
- AdsbLink.DemodulatorInvertsWaveform: does not model noise beyond the preamble (AdsbLink.NoisyPreambleLocks); a burst in the middle of another frame is AdsbLink.StrongerWins and AdsbLink.WeakerIsPassedOver.
- AprsTx.FixPath: does not model the overflow of a machine integer by an SSID of more than nine digits.
- The position and Mic-E fields of APRS text.
- BleRx.Decoder.TryParse: does not model the symbol sums and the search over symbol phases in front of it; it begins at the decided bits behind an access address.
- False access-address matches elsewhere in a stream, and the suppression of duplicates.
- The length table and the message fields of AIS.
- AisAir.TransmissionsComeBack: does not model bits wrong on the air; what one wrong bit of the flag does is AisAir.StartWithWrongBit.
- Acars.AcarsBitDecoder.FeedBit: does not model the state notifications, which change nothing.
- The field slicing of a decoded ACARS block: fixed substrings.
- Battleship.Board.PlaceNextShip: does not model the narrowing of coordinates to eight bits, because only positions on the board are stored.
- Turn taking, hand-over and rendering of the Battleship app.
- The calculator, sonde decoders, pager formats other than POCSAG, and the other games.
