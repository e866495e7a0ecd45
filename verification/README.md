# A verified model of the MPEG-TS demultiplexer

This Dafny project models a C++ demultiplexer for MPEG-2 transport streams (ISO/IEC 13818-1) and
proves properties of the model. It covers these parts.

- **Packets** (`TsPacket.dfy`, `PacketGenerator.dfy`): the flag-driven layout of the 188-octet packet,
  the parser as an object with mutable fields, and the deterministic encoder, which the parser undoes.
- **PSI** (`Crc32.dfy`, `Psi.dfy`, `PsiAccumulator.dfy`, `PsiDelivery.dfy`): the table-driven CRC-32
  against the bit-serial register of Annex A, PAT and PMT parsing against their section syntax, and
  the reassembly of sections from payloads, up to tables that arrive in pieces among other packets.
- **The demultiplexer** (`Storage.dfy`, `DemuxSteps.dfy`, `DemuxModel.dfy`, `Demuxer.dfy`): the object
  with its buffer, its resynchronising search, its open and stored iterations and its PSI and PCR
  state. Every method is proved against a function on values. The object carries the list of public
  calls made so far, and its invariant says that its state is that of running them.
- **Properties of runs** (`Chunking.dfy`, `Reachability.dfy`, `Synchronisation.dfy`, `Redelivery.dfy`,
  `DeliveryOrder.dfy`, `Feeding.dfy`, `PsiRuns.dfy`, `TrackerRuns.dfy`, `Grouping.dfy`,
  `IterationIds.dfy`, `OtherCalls.dfy`): independence of how the input is cut into calls, where
  delivered packets come from, soundness and completeness of the search, what a loss of
  synchronisation repeats and what an overflow drops, conservation of octets and packets, the
  structure of iterations, their ids and summaries, the samples of the trackers, that parsed tables
  have a correct CRC, and what the clearing calls leave alone.
- **End to end** (`EndToEnd.dfy`, `LossExample.dfy`, `RunExamples.dfy`): what the packet generator writes,
  fed after noise and cut anyhow, is found, delivered and stored octet by octet; and runs in which
  properties one might expect do not hold.
- **Clocks and PES** (`Clock.dfy`, `Pcr.dfy`, `Pes.dfy`): differences on clocks that wrap around, the
  bounded PCR window against its full history, interpolation, and PES packets and their reassembly.

`dafny verify dfyconfig.toml` checks everything.

How to read it: a `View()` function gives the value of an object. An octet is an `int` below 256
(`Bytes.Byte`), and a CRC register is a `bv32`. The abstract state of the demultiplexer is
`DemuxModel.State`; `DemuxModel.Run` folds public calls over it, and `DemuxSteps.PacketStep` is what
one accepted packet does. `Demuxer.MPEGTSDemuxer.Valid` says that the object is in the state
`Run(history)`, so what is proved about runs holds of every object between calls. Methods are proved
against functions, and the functions against statements in octets, bits and numbers that name none of
them, such as `Psi.PatParsesExactly`, `TsPacket.AcceptedExactly` or `Grouping.RunStoresExactly`.

Where a property one might expect is not what the code does, the code is modelled, the exact
condition is proved, and an input is given:

- Octets can be delivered more than once. A call that loses synchronisation keeps its whole buffer.
  Two calls of a run deliver an octet both exactly if the first loses synchronisation and the second
  finds blocks that overlap those it delivered (`DeliveryOrder.TwiceExactly`, `AtMostOnceExactly`); the
  next call is `Redelivery.RedeliversExactly`, with two special cases. Until the buffer overflows every
  further call may repeat the same packets (`Redelivery.StuckCalls`). `LossExample.DeliveredTwice` and
  `RunExamples.RepeatedLater` are such runs. Without a loss no octet is delivered twice
  (`DeliveryOrder.DeliveredOnce`).
- Octets can be dropped, by any call that brings more octets than the buffer has room for. An overflow
  drops exactly the oldest octets in excess of 18800, for good, and keeps the stride of 188 exactly
  when whole blocks are dropped (`DeliveryOrder.OverflowDropsExactly`, `DroppedForGood`,
  `OverflowKeepsStrideExactly`).
- Synchronisation holds throughout a feed without overflow exactly when every aligned block parses
  (`Chunking.StaysSynchronisedExactly`); a block of zeros does not (`ZerosLoseSynchronisation`).
- A packet with an adaptation field only, whose field does not fill the packet, is accepted. The
  encodings are exactly the accepted blocks that are filled (`TsPacket.EncodingsExactly`);
  `UnfilledIsAccepted` gives a block that is not.
- Iteration ids are 32-bit. They are distinct exactly up to 2^32 iterations, and all below the next id
  exactly up to 2^32 - 2 (`IterationIds.IdsDistinctExactly`, `IdsBelowNextExactly`);
  `RunExamples.SharedId` is a run with more.
- The discontinuity flag of an iteration does not follow every gap of the continuity counter. It does
  exactly if there is no gap or an announced one (`Grouping.FlagIsGapExactly`); `RunExamples.GapExample`
  is a run with a gap it misses.
- Across a wrap of the clock interpolation can return an invalid PCR: exactly when the clock difference
  times the packets passed reaches the ticks left on the clock times the packets between
  (`PcrTracking.InterpolationValidExactly`), as in `InvalidAcrossWrap`; never if the clock does not
  wrap between the two samples (`ValidUnlessWrapped`). `ExtrapolationValidExactly` is the same past
  the last sample.
- The statistics of PCRs never move in the demultiplexer, since the packet parser skips the PCR: every
  sample of every run is zero (`TrackerRuns.RunTrackersQuiet`).

## Model

| member | source | states |
|---|---|---|
| Crc32.TableIsEightShifts | src/mpegts_psi.cpp:14-55 | Each of the 256 table entries is its index, placed in the top octet, after eight steps of the shift register with polynomial 0x04C11DB7. |
| Crc32.TableStepIsEightClocks | src/mpegts_psi.cpp:60-62 | One table step is eight steps of the bit-serial register of Annex A of ISO/IEC 13818-1, for every register value and octet. |
| Crc32.CalculateCRC32 | src/mpegts_psi.cpp:57-65 | For every octet string the table-driven loop returns the bit-serial CRC with initial value 0xFFFFFFFF. |
| Crc32.VerifyCRC32 | src/mpegts_psi.cpp:67-81 | Accepts exactly the strings of at least four octets whose bit-serial CRC, trailer included, is 0. |
| Crc32.ZeroResidue | src/mpegts_psi.cpp:67-81 | The CRC over a section with its trailer is 0 if and only if the trailer is the CRC of the octets before it. |
| Crc32.AppendedCrcVerifies | src/mpegts_psi.cpp:57-81 | Appending the big-endian CRC to any octet string gives a section that verifies. |
| Crc32.Absorb | src/mpegts_psi.cpp:60-62 | Adding a word to the register and then shifting n times is clocking in its n top bits one by one and adding what is left of the word. |
| Crc32.ShiftNZero | src/mpegts_psi.cpp:60-62 | The free-running register reaches zero after n steps only from zero. |
| Crc32.ClockBitInjective | src/mpegts_psi.cpp:57-65 | A step with a given input bit is injective in the register. |
| Crc32.SameInputInjective | src/mpegts_psi.cpp:57-65 | Clocking any bit string is injective in the register. |
| Crc32.BurstWindow | src/mpegts_psi.cpp:57-81 | If two strings of at most 32 bits lead to the same register, the registers they started from differ in leading bits only; equal starts force equal strings. |
| Crc32.BurstDetected | src/mpegts_psi.cpp:57-81 | Two verifying sections of equal length that agree outside any 32 consecutive bits are identical. |
| TsPacket.TSPacket.constructor | src/mpegts_packet.cpp:6-13 | A new packet object has the default fields. |
| TsPacket.TSPacket.Parse | src/mpegts_packet.cpp:15-52 | Into any packet object, new or used: the object afterwards, field by field, and the result, on every 188-octet block, accepted or not. |
| TsPacket.TSPacket.ParseHeader | src/mpegts_packet.cpp:54-87 | Accepts exactly sync byte 0x47, error indicator clear and a non-reserved adaptation control; on a wrong sync byte only that field changes. |
| TsPacket.TSPacket.ParseAdaptationField | src/mpegts_packet.cpp:89-161 | At any offset: accepts exactly the lengths that stay in the packet and hold the fields the flags announce and the private data; fields not reached keep their value. |
| TsPacket.HeaderRoundTrip | src/mpegts_packet.cpp:54-87 | Parsing the four octets of an encoded header gives back every header field. |
| TsPacket.AdaptationRoundTrip | src/mpegts_packet.cpp:89-161 | Parsing an encoded adaptation field gives back flags, length and private data, whatever PCR, OPCR, splice countdown and extension octets lie around them. |
| TsPacket.RoundTrip | src/mpegts_packet.cpp:15-161 | Parsing any well-formed encoding (sections 2.4.3.2 and 2.4.3.4 of ISO/IEC 13818-1) recovers header, flags, private data and payload. |
| TsPacket.Reencode | src/mpegts_packet.cpp:15-161 | Every accepted block that is filled is the encoding of the layout read from it. |
| TsPacket.EncodingsExactly | src/mpegts_packet.cpp:15-161 | A block is an encoding if and only if it is accepted and filled: an adaptation-only packet whose field does not fill the 188 octets is accepted although the standard has no such packet. |
| TsPacket.UnfilledIsAccepted | src/mpegts_packet.cpp:15-161 | A block with header 47 01 00 20 and an empty adaptation field is accepted and is no encoding. |
| TsPacket.PayloadPartition | src/mpegts_packet.cpp:33-46 | If there is payload, header, adaptation field and payload partition the 188 octets. |
| TsPacket.AcceptedExactly | src/mpegts_packet.cpp:15-161 | In octets of the block, for any block: accepted if and only if octet 0 is 0x47, the top bit of octet 1 is clear, octet 3 announces payload or an adaptation field, and the field, if announced, is empty or lies in the packet and holds the 6, 6 and 1 octets its flags ask for and the private data with its length octet. |
| TsPacket.ParsedBlock | src/mpegts_packet.cpp:15-87 | What any accepted block parses to, in its octets: unit start, priority, 13-bit PID, scrambling, counter, what the packet has, and the payload from behind header and adaptation field to the end. |
| TsPacket.ParsedField | src/mpegts_packet.cpp:89-161 | The eight flags of its adaptation field are the bits of octet 5, from the top, and the private data lies behind the octets the flags ask for and its length octet; an empty field leaves the defaults. |
| TsPacket.ReusedObject | src/mpegts_packet.cpp:15-52 | Parsed into a used object, the same blocks are accepted with the same header; payload and adaptation field stay where the block has none, and so do the marks that they are there. |
| PacketGenerator.GenerateHeader | tests/test_packet_generator.cpp:16-39 | Writes exactly the encoded header of the configured packet, with PID cut to 13 bits and counter to 4, and leaves the rest of the array alone. |
| PacketGenerator.GenerateAdaptationField | tests/test_packet_generator.cpp:41-69 | The octets of a field without private data, and of one with it (lengths modulo 256). |
| PacketGenerator.GeneratePacket | tests/test_packet_generator.cpp:71-105 | Fills the 188-octet array in place with the standard encoding of the configured packet. |
| PacketGenerator.GenerateSequence | tests/test_packet_generator.cpp:107-125 | The concatenation of encoded packets whose counters start at the configured one and rise by one modulo 16. |
| PacketGenerator.GeneratedPacketParses | tests/test_packet_generator.cpp:71-105 | Parsing a generated packet recovers PID modulo 2^13, counter modulo 16, unit start, private data and payload, for every configuration. |
| Psi.ParseSectionHeader | src/mpegts_psi.cpp:87-123 | Short header of 3 octets or long one of 8, by the syntax indicator; 0 and no fields when the data is too short. |
| Psi.ParsePAT | src/mpegts_psi.cpp:129-177 | The parsed table, or none exactly when length, table id, section bounds or CRC fail. |
| Psi.ParsePMT | src/mpegts_psi.cpp:202-289 | The parsed table, or none exactly when length, table id, bounds, CRC or a descriptor bound fails. |
| Psi.ParseStreams | src/mpegts_psi.cpp:254-281 | The stream loop reads every entry in order and fails exactly when descriptors reach past the stream end. |
| Psi.HeaderRoundTrip | src/mpegts_psi.cpp:87-123 | Decoding an encoded long header, before any octets, gives back every field. |
| Psi.EntriesRoundTrip | src/mpegts_psi.cpp:153-165 | Decoding any number of encoded program entries gives back the list. |
| Psi.StreamsRoundTrip | src/mpegts_psi.cpp:254-281 | Decoding any number of encoded stream entries with descriptors gives back the list. |
| Psi.SectionVerifies | src/mpegts_psi.cpp:67-81 | A body with its CRC passes the length and CRC checks, whatever follows it. |
| Psi.PatRoundTrip | src/mpegts_psi.cpp:129-177 | Every PAT whose length fits 12 bits, encoded by section 2.4.4.3 of ISO/IEC 13818-1 with its CRC and followed by anything, parses to exactly that PAT. |
| Psi.PmtRoundTrip | src/mpegts_psi.cpp:202-289 | Every PMT whose length fits 12 bits, with any streams and descriptors, encoded by section 2.4.4.8 of ISO/IEC 13818-1 with its CRC and followed by anything, parses to exactly that PMT. |
| Psi.PatParsesExactly | src/mpegts_psi.cpp:129-177 | Any octets parse as a PAT if and only if there are at least 8, the first is 0, and the section they announce has at least 4 octets, lies within them, and has CRC 0. |
| Psi.ParsedPat | src/mpegts_psi.cpp:129-177 | What any octets that parse as a PAT parse to: header, stream id, one program per four octets up to the trailer with 16-bit number and 13-bit PID, and a CRC that is that of the octets before it. |
| Psi.PmtParsesExactly | src/mpegts_psi.cpp:202-289 | Any octets parse as a PMT if and only if there are at least 12, the first is 2, the section they announce has at least 4 octets, lies within them, and has CRC 0, the program descriptors lie within them, and the stream loop succeeds. |
| Psi.ParsedPmt | src/mpegts_psi.cpp:202-245 | What any octets that parse as a PMT parse to: header, program number, 13-bit PCR PID, 12-bit length of the program descriptors, and a CRC that is that of the octets before it. |
| Psi.ParsedPmtStreams | src/mpegts_psi.cpp:235-281 | And its descriptors and streams: they lie back to back up to less than five octets before the trailer, each with type, 13-bit PID, and descriptors of its 12-bit length. |
| Psi.StreamsParseExactly | src/mpegts_psi.cpp:254-281 | The stream loop yields a list of streams if and only if those streams lie back to back from its start, no five octets remain before its end, and the last ends by it. |
| Psi.DamagedPatNeverParses | src/mpegts_psi.cpp:67-177 | An encoded PAT altered anywhere within 32 consecutive bits, its announced length kept, does not parse, whatever follows it. |
| Psi.DamagedPmtNeverParses | src/mpegts_psi.cpp:67-289 | The same for an encoded PMT. |
| PsiAccumulation.PSIAccumulator.constructor | src/mpegts_psi.cpp:337-342 | A new accumulator is empty, incomplete and unsynchronised. |
| PsiAccumulation.PSIAccumulator.AddData | src/mpegts_psi.cpp:344-389 | The whole new state and the result; a start whose pointer reaches the end of the payload loses synchronisation; data before a start is ignored. |
| PsiAccumulation.PSIAccumulator.GetSection | src/mpegts_psi.cpp:391-400 | Hands out exactly the announced section and empties the accumulator, or nothing and no change while incomplete. |
| PsiAccumulation.PSIAccumulator.Reset | src/mpegts_psi.cpp:402-407 | Back to the initial state. |
| PsiAccumulation.SectionStarts | src/mpegts_psi.cpp:344-389 | A start with pointer field, skipped octets and a non-empty fragment completes a section if and only if the fragment reaches its end, whatever was held before. |
| PsiAccumulation.SectionContinues | src/mpegts_psi.cpp:344-389 | A continuation completes the section if and only if its last octet has arrived; stuffing after it does not change the section. |
| PsiAccumulation.PointerPastEnd | src/mpegts_psi.cpp:344-389 | A start whose pointer reaches the end of the payload or past it empties the accumulator and completes nothing, whatever was held. |
| PsiAccumulation.IgnoredUntilStart | src/mpegts_psi.cpp:344-389 | While unsynchronised, payloads without a start change nothing and complete nothing. |
| PsiAccumulation.CompletesRegular | src/mpegts_psi.cpp:344-400 | If the expected length is what the held octets announce, which every payload preserves, a completed section is exactly as long as its own header announces. |
| PsiAccumulation.PatIsSection | src/mpegts_psi.cpp:129-177 | An encoded PAT has the size its own header announces and parses to the table. |
| PsiAccumulation.PmtIsSection | src/mpegts_psi.cpp:202-289 | The same for an encoded PMT. |
| Clock.DifferenceIsShortest | src/mpegts_pcr.cpp:55-72 | One correction for wrap-around yields a way from one reading to the other that is at most half a turn and no longer than any other. |
| Clock.Antisymmetric | src/mpegts_pcr.cpp:55-72 | Exchanging the readings negates the difference exactly. |
| Clock.NearReadings | src/mpegts_pcr.cpp:55-72 | Readings at most half a turn apart are subtracted without any correction, in either direction, half a turn included. |
| Clock.DifferencesAdd | src/mpegts_pcr.cpp:55-72 | Two differences add up if their sum is below half a turn. |
| Clock.ChainAdds | src/mpegts_pcr.cpp:55-72 | Along any chain of readings whose steps together are shorter than half a turn, the differences add up to that of the ends. |
| PcrTracking.PcrRoundTrip | src/mpegts_pcr.cpp:11-53 | Decoding the 48 bits of any valid PCR after the flags octet gives it back. |
| PcrTracking.ExtractedExactly | src/mpegts_pcr.cpp:11-53 | A PCR is decoded if and only if there are seven octets, the first has bit 0x10, and the nine bits of the extension are below 300; base and extension are then the 33 and 9 bits of the octets, and valid. |
| PcrTracking.PcrDifferenceIsShortest | src/mpegts_pcr.cpp:55-72 | On valid PCRs the difference is the representative of the difference modulo 2576980377600 ticks of least magnitude, and antisymmetric. |
| PcrTracking.PCRTracker.constructor | src/mpegts_pcr.cpp:83-90 | A new tracker is empty. |
| PcrTracking.PCRTracker.AddPCR | src/mpegts_pcr.cpp:92-119 | The whole new state: window, average, jitter, flag. |
| PcrTracking.PCRTracker.UpdateStatistics | src/mpegts_pcr.cpp:228-249 | The average is the mean of the usable intervals among the last 100 samples, or unchanged if there is none. |
| PcrTracking.PCRTracker.Clear | src/mpegts_pcr.cpp:221-226 | Back to the initial state. |
| PcrTracking.PCRTracker.InterpolatePCR | src/mpegts_pcr.cpp:144-219 | Nothing, interpolation or extrapolation, by where the packet number falls. |
| PcrTracking.WindowIsRecent | src/mpegts_pcr.cpp:92-119 | After any history the window is exactly its last 1000 samples. |
| PcrTracking.DiscontinuityIsHistoric | src/mpegts_pcr.cpp:92-119 | The flag holds if and only if some neighbours in the whole history step backwards or by more than 100 ms, even outside the window. |
| PcrTracking.JitterIsHistoric | src/mpegts_pcr.cpp:92-119 | The maximum jitter is the maximum of the distance from 40 ms over all usable intervals of the whole history, and is below 60 ms. |
| PcrTracking.AverageInRange | src/mpegts_pcr.cpp:228-249 | The average is 0 or strictly between 0 and 100 ms. |
| PcrTracking.AverageIsHistoric | src/mpegts_pcr.cpp:228-249 | The average is the mean over the last 100 samples at the last moment when they contained a usable interval. |
| PcrTracking.DiscontinuityInTicks | src/mpegts_pcr.cpp:92-119 | The flag, in integers: it holds if and only if some neighbours in the whole history differ by less than 0 or more than 2700000 ticks. |
| PcrTracking.JitterInTicks | src/mpegts_pcr.cpp:92-119 | The maximum jitter, in integers: 27000 times it is the greatest distance from 1080000 ticks among all neighbours in the history that differ by more than 0 and less than 2700000 ticks, 0 if there are none. |
| PcrTracking.AverageInTicks | src/mpegts_pcr.cpp:228-249 | The average, in integers: times 27000 times the number of neighbours among the last 100 samples that differ by more than 0 and less than 2700000 ticks, it is the sum of those differences; without any it is as before the last sample, at first 0. |
| PcrTracking.BracketFound | src/mpegts_pcr.cpp:150-166 | For a packet number inside the samples the search stops at two neighbours around it. |
| PcrTracking.InterpolationBracketed | src/mpegts_pcr.cpp:168-196 | Inside forward samples the result is a valid PCR between the two bracketing ones. |
| PcrTracking.InterpolationInIntegers | src/mpegts_pcr.cpp:168-181 | Between two samples, in packet numbers and ticks: the result is defined if and only if the product of clock difference and packets passed is above minus the packets between, and what is added is their quotient, 0 if negative. |
| PcrTracking.InterpolationValidExactly | src/mpegts_pcr.cpp:168-181 | Inside any valid samples the result is a valid PCR if and only if the clock difference times the packets passed is less than the ticks left on the clock times the packets between. |
| PcrTracking.ValidUnlessWrapped | src/mpegts_pcr.cpp:168-181 | So it is valid wherever the clock does not wrap between the two samples around the packet. |
| PcrTracking.InvalidAcrossWrap | src/mpegts_pcr.cpp:168-196 | Two valid samples around a wrap of the clock between which the result is no valid PCR. |
| PcrTracking.InterpolationExact | src/mpegts_pcr.cpp:144-219 | It is exact at every sample before the last with a valid PCR, if packet numbers increase, however the PCRs move. |
| PcrTracking.ExtrapolationExactly | src/mpegts_pcr.cpp:182-216 | Past the last sample there is a result if and only if the clock has gone forward between the last two. |
| PcrTracking.NoResultExactly | src/mpegts_pcr.cpp:144-219 | There is no result if and only if there are fewer than two samples, or the packet number is before the first, or at or past the last with no extrapolation from the last two. |
| PcrTracking.ExtrapolationInIntegers | src/mpegts_pcr.cpp:182-216 | Extrapolation in packet numbers and ticks, also from packet numbers that go back, whose difference wraps at 2^64: the last PCR moved by clock difference times packets past it over packets between, or nothing. |
| PcrTracking.ExtrapolationMonotone | src/mpegts_pcr.cpp:182-216 | Extrapolation starts at the PCR of the last sample and never decreases. |
| PcrTracking.ExtrapolationValidExactly | src/mpegts_pcr.cpp:182-216 | Past the last sample the result is valid if and only if the clock difference times the packets past it is less than the ticks left on the clock there times the packets between the last two. |
| PcrTracking.InterpolationMonotone | src/mpegts_pcr.cpp:144-219 | Inside forward samples it is monotone in the packet number, within and across brackets. |
| Pes.TimestampDifferenceIsShortest | src/mpegts_pes.cpp:11-24 | On 33-bit timestamps, modulo 8589934592, the difference is the shortest way round, and antisymmetric. |
| Pes.TimestampRoundTrip | src/mpegts_pes.cpp:40-56 | Decoding the five octets of any 33-bit timestamp with any prefix gives it back. |
| Pes.ParseHeader | src/mpegts_pes.cpp:58-146 | The parsed header, or none exactly when the data is too short or the start code is wrong. |
| Pes.ParsePacket | src/mpegts_pes.cpp:148-172 | Header and payload, or none exactly when the header fails or does not fit. |
| Pes.HeaderRoundTrip | src/mpegts_pes.cpp:58-146 | Parsing an encoded header recovers every flag and timestamp; it has optional fields if and only if its stream id is none of BC, BF, F0, F1, F2, F8 and FF. |
| Pes.RoundTrip | src/mpegts_pes.cpp:148-172 | Parsing any well-formed PES packet of non-zero length recovers header, timestamps and payload; those seven stream ids, and no others, go without optional fields. |
| Pes.HeaderParsesExactly | src/mpegts_pes.cpp:58-146 | Any octets hold a header if and only if there are at least six, they begin with 00 00 01, and, unless the stream id is one of the seven, the header and the timestamps announced in octet 7 lie within them. |
| Pes.ParsedHeader | src/mpegts_pes.cpp:58-146 | What any octets that hold a header parse to: stream id, length, optional fields exactly for the other stream ids, every flag as its bit of octets 6 and 7, a PTS exactly for flags 2 and 3, a DTS exactly for flags 3, each 33 bits of its five octets. |
| Pes.PacketParsesExactly | src/mpegts_pes.cpp:148-172 | A packet parses if and only if its header does, and its payload is then all behind the header. |
| Pes.MediaKeepsTimestamps | src/mpegts_pes.cpp:58-172 | Every packet with a stream id from C0 to EF keeps PTS and DTS as encoded. |
| Pes.PESAccumulator.constructor | src/mpegts_pes.cpp:178-184 | A new accumulator is empty. |
| Pes.PESAccumulator.AddData | src/mpegts_pes.cpp:186-206 | The whole new state and the result. |
| Pes.PESAccumulator.ParseAndCheckComplete | src/mpegts_pes.cpp:230-278 | Sets the expected length from the first six octets and completes by it; length 0 completes at the header. |
| Pes.PESAccumulator.GetPacket | src/mpegts_pes.cpp:208-221 | Parses the whole buffer, and resets if and only if that succeeds. |
| Pes.PESAccumulator.Reset | src/mpegts_pes.cpp:223-228 | Back to the initial state. |
| Pes.Reassembly | src/mpegts_pes.cpp:186-278 | However a packet is cut into non-empty chunks and whatever was held before, exactly the last chunk completes it, and the original packet comes out. |
| Pes.WrongStartCode | src/mpegts_pes.cpp:230-250 | As soon as six octets are held that do not begin with 00 00 01, the accumulator is emptied, nothing completes, and no header would parse. |
| Pes.AnnouncedCompletes | src/mpegts_pes.cpp:230-278 | With a length announced, the unit is complete if and only if six octets more than that are held. |
| Pes.UnboundedCompletes | src/mpegts_pes.cpp:230-278 | With length 0, it is complete if and only if the header parses. |
| Pes.TooShortToTell | src/mpegts_pes.cpp:186-240 | With fewer than six octets everything is held and nothing completes. |
| Storage.StreamIterations.AddIteration | src/mpegts_storage.cpp:15-31 | Appends the iteration under its id. |
| Storage.StreamIterations.GetIteration | src/mpegts_storage.cpp:33-38 | The first iteration with the id, if any. |
| Storage.StreamIterations.RemoveIteration | src/mpegts_storage.cpp:40-47 | Removes the first iteration with the id and nothing else. |
| Storage.StreamIterations.Clear | src/mpegts_storage.cpp:49-52 | Empties the stream. |
| Storage.StreamIterations.Summarize | src/mpegts_demuxer.cpp:426-444 | One summary per stored iteration, in order, with its id, the sums of its normal and its private segment lengths, and its first and last counter. |
| Storage.StreamIterations.HasDiscontinuity | src/mpegts_storage.cpp:54-61 | True if and only if some stored iteration is flagged. |
| Storage.DemuxerStreamStorage.GetOrCreateStream | src/mpegts_storage.cpp:72-78 | The stream of the PID; if there is none, a new empty one, the others unchanged. |
| Storage.DemuxerStreamStorage.GenerateIterationID | src/mpegts_storage.cpp:85-87 | The current id; the counter goes on modulo 2^32. |
| Storage.DemuxerStreamStorage.ClearStream | src/mpegts_storage.cpp:89-94 | Empties one stream and changes no other. |
| Storage.DemuxerStreamStorage.Clear | src/mpegts_storage.cpp:96-99 | No streams, and ids start at 1 again. |
| Storage.DemuxerStreamStorage.Store | src/mpegts_demuxer.cpp:320-323 | Appends to one stream, creating it if needed, and changes no other. |
| Storage.DemuxerStreamStorage.Remove | src/mpegts_demuxer.cpp:500-503 | Removes from one stream, creating it if needed, and changes no other. |
| DemuxSteps.PsiStepConsistent | src/mpegts_demuxer.cpp:545-593 | No packet leaves an accumulator complete without a whole section. |
| DemuxSteps.PacketStepsAppend | src/mpegts_demuxer.cpp:64-86 | Processing one list of packets after another is processing their concatenation. |
| DemuxModel.FirstFrom | src/mpegts_demuxer.cpp:109-176 | The least start, from a given one on, whose greedy search succeeds, or none. |
| DemuxModel.Clipped | src/mpegts_demuxer.cpp:29-36 | What is kept of the buffer are its most recent octets, all of them up to 18800. |
| Demuxer.MPEGTSDemuxer.constructor | src/mpegts_demuxer.cpp:7-15 | A new demultiplexer is in the state of the empty run. |
| Demuxer.MPEGTSDemuxer.FeedData | src/mpegts_demuxer.cpp:22-40 | The whole new state is that of the abstract step, which cuts the buffer, searches if unsynchronised, and folds the packet step over the blocks; the run grows by this call. |
| Demuxer.MPEGTSDemuxer.ProcessBuffer | src/mpegts_demuxer.cpp:42-93 | The state after searching and delivering; after a loss of synchronisation the whole buffer is kept. |
| Demuxer.MPEGTSDemuxer.DeliverPackets | src/mpegts_demuxer.cpp:54-86 | The loop delivers the maximal run of parsing blocks from the offset, folding the packet step over them, and reports a loss exactly if a whole block is left. |
| Demuxer.MPEGTSDemuxer.DeliverPacket | src/mpegts_demuxer.cpp:74-85 | One packet takes the core state to the packet step of it. |
| Demuxer.MPEGTSDemuxer.TryFindValidIteration | src/mpegts_demuxer.cpp:95-180 | Finds the least start whose greedy search succeeds, or none; the final re-check never rejects. |
| Demuxer.MPEGTSDemuxer.SearchFrom | src/mpegts_demuxer.cpp:109-176 | Succeeds if and only if a second and a third packet exist as the greedy search picks them. |
| Demuxer.MPEGTSDemuxer.AddPacketToStorage | src/mpegts_demuxer.cpp:215-312 | Storage, open iterations and last counters after a packet: unchanged if the PID is not accepted, otherwise the packet is in the open iteration of its PID, a fresh one after a unit start. |
| Demuxer.MPEGTSDemuxer.FinalizeIteration | src/mpegts_demuxer.cpp:314-328 | Moves the open iteration of a PID to the end of its stream. |
| Demuxer.MPEGTSDemuxer.FinalizeAllIterations | src/mpegts_demuxer.cpp:330-341 | The loop moves every open iteration to its stream, whatever order the PIDs come in. |
| Demuxer.MPEGTSDemuxer.ProcessPSIPacket | src/mpegts_demuxer.cpp:545-593 | The PSI state after a packet; a parsed PAT gives every PMT PID a new accumulator. |
| Demuxer.MPEGTSDemuxer.ProcessPat | src/mpegts_demuxer.cpp:551-571 | The PSI state after a payload on PID 0. |
| Demuxer.MPEGTSDemuxer.ProcessPmt | src/mpegts_demuxer.cpp:574-592 | The PSI state after a payload on a PMT PID. |
| Demuxer.MPEGTSDemuxer.CreatePmtAccumulators | src/mpegts_demuxer.cpp:560-567 | A new accumulator for every listed program but the network entry, the others kept. |
| Demuxer.MPEGTSDemuxer.ProcessPCR | src/mpegts_demuxer.cpp:595-612 | Trackers after a packet: one sample added to the tracker of its PID if the flag is set and the value valid. |
| Demuxer.MPEGTSDemuxer.GetIterationsSummary | src/mpegts_demuxer.cpp:415-447 | Finalizes every open iteration, changes nothing else, and returns the summaries of the PID. |
| Demuxer.MPEGTSDemuxer.GetDiscoveredPIDs | src/mpegts_demuxer.cpp:408-413 | Finalizes every open iteration, and returns the PIDs of all streams. |
| Demuxer.MPEGTSDemuxer.GetPayload | src/mpegts_demuxer.cpp:449-473 | The first segment of the kind in the stored iteration with the id, without any change. |
| Demuxer.MPEGTSDemuxer.GetAllPayloads | src/mpegts_demuxer.cpp:475-498 | All segments of the stored iteration with the id, in order. |
| Demuxer.MPEGTSDemuxer.ClearIteration | src/mpegts_demuxer.cpp:500-503 | Removes one stored iteration; the rest of the state is unchanged. |
| Demuxer.MPEGTSDemuxer.ClearStream | src/mpegts_demuxer.cpp:505-507 | Empties one stream; open iterations stay. |
| Demuxer.MPEGTSDemuxer.ClearAll | src/mpegts_demuxer.cpp:509-521 | Storage, buffer, synchronisation, open iterations and last counters are as new; PSI state, trackers and packet count stay. |
| Demuxer.MPEGTSDemuxer.SetProgramsTable | src/mpegts_demuxer.cpp:531-543 | Filter set, storage emptied and ids from 1 again, while open iterations and their ids stay. |
| Chunking.ChunkingDoesNotMatter | src/mpegts_demuxer.cpp:22-93 | From any synchronised state, if no call overflows the buffer and every aligned block parses, any split of the input over calls gives the state of folding the packet step once over the blocks: storage, open iterations, counters, PSI, PCR, packet count and leftover octets. |
| Chunking.StaysSynchronisedExactly | src/mpegts_demuxer.cpp:22-93 | Without overflow, synchronisation holds after every call if and only if every aligned block parses. |
| Chunking.ZerosLoseSynchronisation | src/mpegts_demuxer.cpp:54-72 | A block of zeros, fed to a synchronised demultiplexer with nothing left over, fits and loses synchronisation. |
| Chunking.FedIsWhole | src/mpegts_demuxer.cpp:22-93 | One call without overflow stays synchronised if and only if its blocks parse, and then is the fold over them. |
| Chunking.WholeComposes | src/mpegts_demuxer.cpp:22-93 | Folding over two inputs in turn is folding over their concatenation. |
| Chunking.BlocksSplit | src/mpegts_demuxer.cpp:54-86 | The blocks of a concatenation parse if and only if those of the first part and of its leftover with the second do. |
| Reachability.BufferInvariant | src/mpegts_demuxer.cpp:22-93 | After every run of public calls the buffer is a suffix of the octets fed since the last clear, at most 18800 octets, and shorter than a block while synchronised. |
| Reachability.FeedingDelivers | src/mpegts_demuxer.cpp:42-93 | A call changes the core state by the packet step folded over the packets it delivers, and by nothing else. |
| Reachability.OnlyInputIsDelivered | src/mpegts_demuxer.cpp:42-93 | In every run each delivered packet is an accepted block of the octets fed since the last clear, back to back with the others of its call. |
| Reachability.DeliveriesAreContiguous | src/mpegts_demuxer.cpp:42-93 | While synchronisation holds without overflow, a call delivers the blocks right after those delivered before, at stride 188: none twice. |
| Synchronisation.SearchIsSound | src/mpegts_demuxer.cpp:95-180 | A successful search has found three valid packets p0 < p1, p1 + 188 <= p2, p2 + 188 <= p0 + 1880, of which each, next to the one before, has the next counter modulo 16 or the discontinuity indicator set, and the same PID if the one before has payload; p0 is the least start possible, and at least one packet is delivered; a failed search changes nothing, and no start would do. |
| Synchronisation.SearchFindsExactly | src/mpegts_demuxer.cpp:95-213 | At three back-to-back packets of one PID with consecutive counters, the first with payload and no false jump inside it, the search stops exactly if it succeeds nowhere before. |
| Synchronisation.SearchIsComplete | src/mpegts_demuxer.cpp:42-213 | After a prefix without sync bytes, three such packets are found even if their payloads hold sync bytes, all three are delivered, and what follows them after them. |
| Synchronisation.TrioAdmits | src/mpegts_demuxer.cpp:109-176 | Whatever the greedy search takes for the second of three such packets, it finds a third. |
| Synchronisation.ThreePacketsExactly | src/mpegts_demuxer.cpp:95-213 | In a buffer with packets at three offsets only, the search succeeds if and only if counters or indicators, PIDs and distances are as said above, and then at the first. |
| Grouping.StoreHoldsGroups | src/mpegts_demuxer.cpp:215-341 | After any packets and getter calls, in any order, the stored iterations of every PID are its closed groups of packets and the open one its open group: data, segments, counts, first and last counters, unit start, and a discontinuity flag that holds if and only if a packet in it jumps and announces so. |
| Grouping.GroupsPartition | src/mpegts_demuxer.cpp:232-250 | The groups of a PID partition its accepted packets into consecutive runs, none empty; a unit starts only with the first packet of a group; each group is compared with the counter of the packet before it. |
| Grouping.Conservation | src/mpegts_demuxer.cpp:215-341 | Stored data followed by open data is private data then payload of every accepted packet in order, and packet counts add up to the number of packets. |
| Grouping.NothingElseStored | src/mpegts_demuxer.cpp:218-229 | Nothing is ever stored or opened for PIDs 0x0000, 0x0001, 0x0002 and 0x1FFF, nor, with a table set, for PIDs outside it, whatever packets and getter calls come. |
| Grouping.AcceptsExactly | src/mpegts_demuxer.cpp:218-229 | Packets are accepted on every PID but those four, if there is no table or the PID is in it, and on no other. |
| Grouping.AcceptedIsAll | src/mpegts_demuxer.cpp:218-229 | On such a PID all delivered packets are accepted. |
| Grouping.GettersOnlyRegroup | src/mpegts_demuxer.cpp:330-341 | Finalizing keeps the data and the packet count of every PID and leaves no open iteration. |
| Grouping.BuffersAreThePieces | src/mpegts_demuxer.cpp:475-498 | The buffers handed out for an iteration are exactly the private data and payload of its packets, in order, none missing a pointer. |
| Grouping.FlagIsGapExactly | src/mpegts_demuxer.cpp:259-270 | The discontinuity flag says whether the counter has a gap if and only if there is none, or one that its packet announces. |
| Grouping.FlagIsGapIfAnnounced | src/mpegts_demuxer.cpp:259-270 | In particular if every gap is announced. |
| Grouping.SummaryCounts | src/mpegts_demuxer.cpp:426-444 | The summary of a stored group gives its id, the octets of payload and of private data of its packets, their number, the flag, and the counters of its first and its last packet. |
| Grouping.IterationExtends | src/mpegts_demuxer.cpp:255-311 | One more packet in an iteration that holds a group gives the iteration of the longer group. |
| Grouping.Slice | src/mpegts_demuxer.cpp:276-310 | Segments laid back to back cut out exactly the pieces that were joined. |
| Grouping.RunStore | src/mpegts_demuxer.cpp:22-93 | The store after every run without clears, with the table set at most at the start, is that of the packets its calls deliver and its getter calls. |
| Grouping.RunConserves | src/mpegts_demuxer.cpp:22-341 | Conservation over every such run. |
| Grouping.RunHoldsGroups | src/mpegts_demuxer.cpp:22-341 | The group structure over every such run. |
| Grouping.RunTable | src/mpegts_demuxer.cpp:531-543 | After every run of any calls the table in force is the one set last, or none. |
| Grouping.RunStoresExactly | src/mpegts_demuxer.cpp:22-341 | Over every run without clears, with the table set at most at the start: a PID that is one of the four, or outside the table, has nothing stored or open; any other has all that the delivered packets with that PID carry, octet by octet, and their number. |
| Grouping.KnownExactly | src/mpegts_demuxer.cpp:408-413 | The PIDs with stored or open iterations are those with accepted packets, and finalizing makes streams of exactly these. |
| Grouping.DiscoveredExactly | src/mpegts_demuxer.cpp:408-413 | Over every such run the PIDs that the getter returns are those, none of the four and in the table if one is set, of which a packet has been delivered. |
| IterationIds.IdsAreOrdinals | src/mpegts_storage.cpp:85-87 | The ids of a PID, stored then open, are the ordinals of its iterations modulo 2^32. |
| IterationIds.IdsDistinctExactly | src/mpegts_storage.cpp:85-87 | Ids of all iterations of all PIDs are distinct if and only if at most 2^32 iterations have begun. |
| IterationIds.IdsBelowNextExactly | src/mpegts_storage.cpp:85-87 | All ids are below the next one if and only if fewer than 2^32 - 1 iterations have begun. |
| IterationIds.IdsIncrease | src/mpegts_storage.cpp:85-87 | While fewer than 2^32 have begun, ids strictly increase along every stream. |
| IterationIds.LookupFinds | src/mpegts_storage.cpp:33-47 | While ids are distinct, looking up an id finds its iteration, and removing it removes only that. |
| IterationIds.RunLookup | src/mpegts_demuxer.cpp:475-503 | The same over every run without clears and with a fixed table. |
| IterationIds.RunBuffers | src/mpegts_demuxer.cpp:475-498 | Over every such run the buffers for an id are exactly what the packets of one group carry. |
| IterationIds.RunSummaries | src/mpegts_demuxer.cpp:415-447 | Over every such run the k-th summary of a PID describes the k-th closed group of its packets: sizes, number, flag, counter of the first and of the last packet; and its id looks up the iteration of that group. |
| PsiDelivery.PatArrives | src/mpegts_demuxer.cpp:545-571 | A PAT cut anyhow into a start packet with pointer field and continuations, other PIDs anywhere among them and any stuffing after it, becomes the parsed PAT exactly when its last octet arrives; until then the parsed PAT is unchanged, and from then on every listed PMT PID has an accumulator. |
| PsiDelivery.PmtArrives | src/mpegts_demuxer.cpp:574-592 | The same for a PMT on a PID with an accumulator, as long as no PAT listing the PID completes meanwhile: packets of the PID change the parsed PMTs exactly when the last octet arrives, and by exactly that table. |
| PsiDelivery.PmtPhaseHolds | src/mpegts_demuxer.cpp:545-593 | Until its last octet arrives the accumulator of the PMT PID holds exactly the part received, through any packets of other PIDs; after it, it is empty. |
| PsiDelivery.WithPmtsListed | src/mpegts_demuxer.cpp:560-567 | After a PAT every listed PID has an empty accumulator and every other PID what it had. |
| PsiDelivery.OthersLeaveAlone | src/mpegts_demuxer.cpp:545-593 | Packets of other PIDs leave the accumulator of a PMT PID alone unless they complete a PAT that lists it. |
| PsiDelivery.PsiOfPacketSteps | src/mpegts_demuxer.cpp:64-86 | The PSI state of the demultiplexer is the PSI steps folded over the packets. |
| PsiDelivery.DamagedPatIgnored | src/mpegts_demuxer.cpp:551-571 | A completed section on PID 0 with a CRC other than 0 changes nothing but the PAT accumulator, which is empty then: the parsed tables and the PMT accumulators stay. |
| PsiDelivery.DamagedPmtIgnored | src/mpegts_demuxer.cpp:574-592 | On a PMT PID it changes nothing but the accumulator of that PID. |
| PsiDelivery.OtherPackets | src/mpegts_demuxer.cpp:545-593 | Packets without payload, or on other PIDs, change nothing. |
| EndToEnd.PartIsFound | src/mpegts_demuxer.cpp:95-213 | Of a generated stream after noise without sync bytes, whose first packet hides no false jump, any part that has been fed is found, at the end of the noise, exactly if it holds three whole packets. |
| EndToEnd.NoInnerSyncSuffices | tests/test_packet_generator.cpp:71-105 | Generated packets without a sync byte behind their first octet hide no false jump. |
| EndToEnd.StreamIsDelivered | src/mpegts_demuxer.cpp:22-93 | However such noise and stream are cut into calls that fit the buffer, a new demultiplexer delivers every generated packet, in order, and nothing else; it ends synchronised with nothing left over. |
| EndToEnd.StreamIsStored | tests/test_packet_generator.cpp:71-125 | Over such a run, what is stored for the PID, stored then open, is the private data and payload the generator put into the packets, one after another, and the packet count is theirs. |
| EndToEnd.GeneratedFields | tests/test_packet_generator.cpp:71-105 | The i-th generated packet parses with the configured PID, unit start, private data and payload, and with counter start plus i modulo 16. |
| Redelivery.AdmitsExtends | src/mpegts_demuxer.cpp:109-176 | A start from which the search succeeds goes on to succeed as the buffer grows. |
| Redelivery.AdmitsSettled | src/mpegts_demuxer.cpp:109-176 | A start with 1880 octets behind it in the buffer succeeds now if and only if it ever will. |
| Redelivery.FirstSyncExtends | src/mpegts_demuxer.cpp:95-180 | As the buffer grows the offset found never grows, and stays if it is 0 or all smaller starts are settled. |
| Redelivery.LossKeeps | src/mpegts_demuxer.cpp:54-72 | A call that loses synchronisation keeps every octet of its buffer, the blocks delivered and the block that failed among them. |
| Redelivery.LossSticks | src/mpegts_demuxer.cpp:42-86 | A loss at an offset that the search finds again leaves a state in which every further call starts there. |
| Redelivery.StuckCall | src/mpegts_demuxer.cpp:22-93 | In such a state a call that fits, whatever it feeds, delivers the same packets as before and leaves such a state. |
| Redelivery.StuckCalls | src/mpegts_demuxer.cpp:22-93 | Over any list of such calls, the packet count grows each time by the same number. |
| Redelivery.StuckRepeats | src/mpegts_demuxer.cpp:22-93 | After any list of such calls, the next one delivers the very packets of the first. |
| Redelivery.RedeliversExactly | src/mpegts_demuxer.cpp:54-86 | After any run and a call that lost synchronisation at offset a with n packets delivered, the next call delivers some octet again if and only if the search then finds an offset that, moved by what an overflow drops, is below a + 188 n and whose blocks reach past a. |
| Redelivery.BothDeliverExactly | src/mpegts_demuxer.cpp:22-93 | Any two calls, however far apart and whatever lies between, deliver some octet both if and only if the blocks they find, by buffer, data and synchronisation, overlap. |
| Redelivery.SearchedLossRedelivers | src/mpegts_demuxer.cpp:54-86 | If the call that lost synchronisation had to search, the next one finds a or less, and delivers again unless the blocks from a smaller offset end before a; always if a is 0 or all smaller starts are settled. |
| Redelivery.SynchronisedLossRedelivers | src/mpegts_demuxer.cpp:54-86 | If synchronisation was lost while held, the next call delivers again if and only if the search succeeds from some offset inside the blocks delivered. |
| DeliveryOrder.DeliveredOnce | src/mpegts_demuxer.cpp:22-93 | In a run without clears in which no call loses synchronisation, no octet is delivered by two calls, even if the buffer overflows. |
| DeliveryOrder.NextAdvancesAll | src/mpegts_demuxer.cpp:22-93 | Over any calls but clears the buffer starts further and further on in what has been fed. |
| DeliveryOrder.PassedForGood | src/mpegts_demuxer.cpp:22-93 | What lies before the buffer is never delivered by any later call. |
| DeliveryOrder.OverflowDropsExactly | src/mpegts_demuxer.cpp:29-36 | A call drops exactly the octets by which buffer and data exceed 18800, the oldest ones; none if and only if they fit. |
| DeliveryOrder.DroppedForGood | src/mpegts_demuxer.cpp:29-36 | The octets an overflow drops are delivered neither by that call nor by any later one. |
| DeliveryOrder.OverflowKeepsStrideExactly | src/mpegts_demuxer.cpp:29-36 | While synchronised, the first block delivered after an overflow is at a multiple of 188 octets from the next one due if and only if the overflow is. |
| DeliveryOrder.TwiceExactly | src/mpegts_demuxer.cpp:22-93 | Two calls of a run without clears deliver some octet both if and only if the first lost synchronisation and the second finds blocks that overlap those it delivered. |
| DeliveryOrder.AtMostOnceExactly | src/mpegts_demuxer.cpp:22-93 | A run without clears delivers every octet at most once if and only if no call finds blocks that an earlier call delivered before losing synchronisation. |
| Feeding.RunFeeds | src/mpegts_demuxer.cpp:22-40 | A run that goes on feeding is the calls in turn. |
| Feeding.FedAllDelivers | src/mpegts_demuxer.cpp:42-93 | Over any calls the core state changes by the packet step folded over all packets they deliver, and by nothing else. |
| Feeding.WaitingComposes | src/mpegts_demuxer.cpp:22-52 | From any unsynchronised state, while the search finds nothing, feeding in two goes is feeding at once. |
| Feeding.CutsBeforeSync | src/mpegts_demuxer.cpp:22-52 | However the input is cut, as long as the search finds nothing before the last call, it is as if fed at once. |
| Feeding.AnyCut | src/mpegts_demuxer.cpp:22-93 | And if every block parses after the call that finds it, the rest can be cut anyhow, too. |
| LossExample.LossRepeats | src/mpegts_demuxer.cpp:22-93 | Generated packets with a block of zeros behind them: n packets are delivered by the first call and again by every further call that fits. |
| LossExample.DeliveredTwice | src/mpegts_demuxer.cpp:22-93 | Three packets, a block of zeros and one octet more deliver six packets, some octets twice. |
| LossExample.StoredTwice | src/mpegts_demuxer.cpp:215-341 | After one further call the storage holds what the packets carry twice, and counts them twice. |
| RunExamples.RepeatedLater | src/mpegts_demuxer.cpp:22-93 | A run in which the call after a loss delivers nothing, and the one after that delivers again what was delivered before the loss. |
| RunExamples.GapWithoutFlag | src/mpegts_demuxer.cpp:259-270 | Over a run that feeds generated packets and one whose counter does not go on, without adaptation fields: the open iteration has a gap, and no flag. |
| RunExamples.GapExample | src/mpegts_demuxer.cpp:259-270 | For instance with counters 0, 1, 2 and 5. |
| RunExamples.CountersDecide | src/mpegts_demuxer.cpp:182-213 | Of any three generated packets of one PID, back to back and without inner sync bytes or adaptation fields, all are delivered if their counters go on one by one, and otherwise none: the buffer waits unsynchronised. |
| RunExamples.JumpsAreRefused | src/mpegts_demuxer.cpp:182-213 | For instance with counters 0, 5 and 10, none. |
| RunExamples.UnitStartsBegin | src/mpegts_demuxer.cpp:232-250 | n generated packets that start units begin n iterations. |
| RunExamples.TooManyIterations | src/mpegts_storage.cpp:85-87 | Over any run that feeds n of them, however cut, ids are distinct if and only if n is at most 2^32, and all below the next one if and only if n + 1 is below 2^32. |
| RunExamples.BlocksFit | src/mpegts_demuxer.cpp:29-36 | Fed block by block, a stream of any length fits the buffer. |
| RunExamples.SharedId | src/mpegts_storage.cpp:85-87 | Such a run of 2^32 + 1 packets, in which two iterations share an id. |
| PsiRuns.PsiOfFeeds | src/mpegts_demuxer.cpp:22-93 | After any run, calls change the PSI state by the PSI steps of the packets they deliver. |
| PsiRuns.RunPatArrives | src/mpegts_demuxer.cpp:545-571 | After any run, calls of any cut that deliver a PAT in a start packet and continuations, among other packets, make it the parsed PAT exactly if its last octet is among what they delivered. |
| PsiRuns.RunPmtArrives | src/mpegts_demuxer.cpp:574-592 | The same for a PMT on a PID with an accumulator, if no PAT listing the PID completes meanwhile: the last packet changes the parsed PMTs exactly if it brings the last octet. |
| PsiRuns.RunIsGenuine | src/mpegts_demuxer.cpp:545-593 | After every run of any calls, each parsed table comes from octets whose announced section lies within them and has CRC 0, and every accumulator expects the length that its octets announce. |
| TrackerRuns.ParsedWithoutPcr | src/mpegts_packet.cpp:119-125 | No block parses to a packet with other than zero PCR fields. |
| TrackerRuns.TrackedQuiet | src/mpegts_pcr.cpp:92-119 | A zero sample added to a tracker of zero samples leaves average, jitter and flag at their initial values. |
| TrackerRuns.RunTrackersQuiet | src/mpegts_demuxer.cpp:595-612 | After every run all samples of all trackers are zero, and average, jitter and flag have their initial values. |
| TrackerRuns.OneSample | src/mpegts_demuxer.cpp:595-612 | A packet with the PCR flag and a valid PCR adds one sample, with value, packet number and counter, to the tracker of its PID, which keeps the last 1000; no other tracker changes, and other packets change none. |
| TrackerRuns.RunSamplesExactly | src/mpegts_demuxer.cpp:74-85 | After every run of any calls the packet count is the number of packets delivered, and a PID has a tracker exactly if packets with the PCR flag were delivered for it; the tracker holds the last 1000 of them, each with its place among all packets delivered and its counter. |
| OtherCalls.ClearAllClears | src/mpegts_demuxer.cpp:509-521 | After any run and a clear there is no stored, open or counted iteration on any PID, no octet held and no synchronisation, and ids start at 1; tables, trackers and packet count are as before. |
| OtherCalls.ClearIterationKeeps | src/mpegts_demuxer.cpp:500-503 | Clearing an iteration keeps what every other id of the PID looks up, every other PID, and everything but the stored streams. |
| OtherCalls.ClearIterationRemoves | src/mpegts_demuxer.cpp:500-503 | If no two iterations of the PID share the id, looking it up then finds nothing. |
| OtherCalls.LookupWithout | src/mpegts_storage.cpp:33-47 | Removing an id leaves what any other id looks up. |
| OtherCalls.CountWithout | src/mpegts_storage.cpp:40-47 | It removes one iteration if the id is there, and otherwise none. |
| OtherCalls.ClearStreamEmpties | src/mpegts_demuxer.cpp:505-507 | Clearing a stream leaves no stored iteration on its PID, and everything else as it was, open iterations included. |
| OtherCalls.SetTableEmpties | src/mpegts_demuxer.cpp:531-543 | Setting the table leaves no stored iteration on any PID and ids at 1, and everything else as it was. |
| OtherCalls.FlushCloses | src/mpegts_demuxer.cpp:330-341 | A getter appends the open iteration of every PID, with its id, to the stored ones, leaves none open, and changes nothing else. |
| OtherCalls.NothingFed | src/mpegts_demuxer.cpp:22-27 | A call without data changes nothing. |
| EndToEnd.StoreOfStream | src/mpegts_demuxer.cpp:22-93 | What the store of a new demultiplexer holds after such a stream, however cut: what storing its packets one by one leaves. |

## Left out

- Decoding of PCR values by the packet parser: the code skips the six octets, so the samples of the demultiplexer are zero (`TrackerRuns.RunTrackersQuiet`); the decoder is modelled on its own.
- PcrTracking.ExtractPCR: not defined on exactly six octets with the PCR flag set, where the code asks for six octets and reads a seventh (src/mpegts_pcr.cpp:12 and 43).
- PcrTracking.PCRTracker.InterpolatePCR: requires that the real the code converts to an unsigned integer is above -1, since C++ leaves the other conversions undefined; forward samples always meet this.
- Floating point: averages, jitter and interpolation are exact reals, so nothing is said about rounding of doubles.
- PcrTracking.InterpolationMonotone: for samples with increasing packet numbers and PCRs that do not step back or wrap, since across a wrap the order of PCRs is lost.
- Counters of 64 bits (packets, sizes, packet numbers in samples) are unbounded, except where interpolation subtracts packet numbers; a PCR is taken to be below 2^54 before its value in ticks would wrap.
- Demuxer.MPEGTSDemuxer.ClearAll: its end state only, because the loop erases from the map it is iterating.
- Demuxer.MPEGTSDemuxer.FinalizeAllIterations: the order in which a map yields its PIDs is arbitrary in the model; no result depends on it.
- Grouping.RunConserves: for runs without clears whose program table is set at most at the start; setting it later empties the storage but keeps open iterations, as `DemuxModel.WithTable` says.
- Reachability.DeliveriesAreContiguous: while synchronisation holds without overflow; losses are the subject of `Redelivery`, overflows that of `DeliveryOrder`.
- Synchronisation.SearchIsComplete: for three packets back to back with no false jump inside the first; with gaps between packets the greedy search may take a false start, and only soundness is proved.
- EndToEnd.StreamIsDelivered: for packets of one PID with no false jump inside the first, as for `Synchronisation.SearchIsComplete`.
- PsiDelivery.PatArrives: sections that begin in the first payload after the pointer field; a section that ends inside the skipped octets, or a second one in the same payload, is dropped by the accumulator.
- Pes.RoundTrip: packets of non-zero length; one of length 0 is complete at its header in the code, and octets past an announced length become payload.
- Pes.ParseHeader: `padding_stream` is read with optional fields, as in the code, though the standard gives it none.
- Output structs that a failing parser has filled in part: a failed parse yields no value.
- Pointers: a segment is a slice of its iteration's data, a payload is a sequence; null arguments are empty sequences.
- The fields `is_complete`, `buffer_position` and the observed continuity counters, which the repository never reads.
- `PCRManager` and `PESManager`: maps of PIDs to trackers and accumulators, the former part of the demultiplexer object here.
- `getPrograms`, `getPMTPID`, `getPIDsByType`, `getStreamTypeName` and other small lookups.
- The random parts of the packet generator, the example program, the test framework and file input and output.
