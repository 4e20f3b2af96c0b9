# NPU runner: a verified model

This project models the link between an NPU measurement board and its host: the firmware runner that stages a model,
runs it on the NPU and reports what it measured, the host library that drives it over a UART, and the binary formats
both sides share. It proves in Dafny what the two promise each other.

`dafny verify dfyconfig.toml` checks all of it.

## What is modelled

* **CRC-32** (`ShiftRegister`, `CrcBits`, `Crc32`). The nibble-table loop against the bit-at-a-time register of
  section 8 of RFC 1952, and what the checksum detects in messages of any length.
* **Frames and the two parsers** (`Frames`, `HostStream`, `HostLink`, `FirmwareParser`). The host resynchronises on a
  growing buffer and keeps the text between frames; the firmware matches the magic byte by byte. The loops that work in
  place are proved against recursive parsers over the whole stream.
* **The measurement record** (`Measurement`, `HostRecord`, `RunRecord`, `DecodedRun`). What a run writes, what
  RUN_COMPLETE carries, what the host decodes, field by field and cycle by cycle, and what it may conclude.
* **The PMWL blob** (`Pmwl`, `PackAccepts`, `PmwlPacker`, `PmwlFirmware`, `PmwlCutOff`). What pack takes, packing and
  parsing on the host, the firmware's own acceptance in 32-bit arithmetic, and exactly when the two disagree.
* **The run of a blob** (`Memory`, `Placement`, `PackedPlacement`, `OfmCompare`, `PmwlRun`, `Poison`,
  `OfmVerdict`, `CopyBack`). Placement by port in a memory of 2^32 bytes, poisoned outputs, the comparison with the
  references and its way to the host, the copy back to the vendor's buffer and the checksum served of it.
* **The command machine** (`Runner`, `Answers`, `ModeControl`, `CounterLaws`, `Histories`, `RunHistory`, `VendorRun`,
  `PmwlHistory`, `SkippedNpu`, `SkippedNpuExample`). Every handler as a step of a state machine, the answer to everything
  it can hear, invariants over every history from boot, and what the wrapped test contributes to them.
* **The firmware's code** (`Firmware`, `MainLoop`). A class with the firmware's globals, whose methods are the C
  functions, each proved to take the machine exactly one step and to transmit exactly its frames.
* **Both ends together** (`Upload`, `Retransmission`, `EndToEnd`, `LateFrames`, `Requests`, `Refusals`). The bytes one end
  writes are the bytes the other end reads, with repeated chunks, with frames that come late, and with refusals.
* **The counter and the gate** (`PmuCounter`, `CallGraph`). A 48-bit counter read without a latch while it counts, and
  the breadth-first searches of the call-graph gate.

The linker's windows (`.sec_noinit`, staging, S DRAM, on-chip SRAM) are constants. The NPU and the vendor's code are an
arbitrary change of the memory that is theirs to write, an arbitrary return code and arbitrary readings.

## Where code and documentation differ

The model follows the code.

* The comment at `firmware/runner/proto.c:567-571` says that a skipped NPU leaves the region as poisoned and is caught. The
  copy-back at `firmware/runner/pmwl.c:148` writes to the region whether or not the NPU ran. `SkippedNpu.SkippedNpuServed`
  says exactly when such a run is served, and `SkippedNpuExample.FirstRunServesAnIdleNpu` gives a blob and a history.
* The firmware checks a blob's header in the staging window, the host in the blob itself. They agree on every blob that is
  long enough for the header of its version, and `PmwlCutOff.DisagreementIsExact` says when they can disagree on others.
* The host's `run()` does not compare the sequence of RUN_COMPLETE (`host/lib/runner_proto.py:459`), so
  `HostLink.RunReturnsIffCompletes` does not demand it.

## Model

| member | source | states |
|---|---|---|
| `CrcBits.RegisterLaws` | firmware/runner/proto.c:73-90 | The bit-at-a-time reflected CRC-32 register of section 8 of RFC 1952 loses nothing, is a group under exclusive or, moves a value by shifting it, and tells any two 4-byte words apart: the laws that the burst theorems of ShiftRegister rest on |
| `CrcBits.FourTurnsSplit` | firmware/runner/proto.c:73-90 | Four bit steps depend on the low nibble alone; the other 28 bits only move down. This is why a 16-entry table is enough |
| `Crc32.NibbleIsFourSteps` | firmware/runner/proto.c:73-90 | One lookup in the 16-entry table equals four bit steps, for every register value |
| `Crc32.Crc32Update` | firmware/runner/proto.c:80-90 | The nibble-table loop leaves exactly the register that the bit-at-a-time definition leaves, for every start value and byte string |
| `Crc32.Crc32Buffer` | firmware/runner/proto.c:92-100 | The whole CRC equals the bit-at-a-time CRC-32 of the bytes |
| `Crc32.UpdateAppend` | firmware/runner/proto.c:291-295 | Feeding a and then b is feeding a+b, which justifies the CRC over header and then payload |
| `Crc32.BurstChangesCrc` | firmware/runner/proto.c:73-100 | Two messages of one length, however long, that differ only within four consecutive bytes never share a CRC |
| `Crc32.ResidueIffCrc` | firmware/runner/proto.c:722-733 | A trailer is the CRC of what precedes it if and only if the register over both ends in one fixed residue |
| `Crc32.BurstInCodewordDetected` | firmware/runner/proto.c:722-733 | A burst of up to four bytes anywhere in message plus trailer, also across their border or inside the CRC, always breaks the match |
| `Crc32.CheckValue` | firmware/runner/proto.c:73-110 | The CRC is the one zlib computes: its check value, over the nine ASCII digits, is 0xCBF43926 |
| `Frames.EncodeDecode` | host/lib/runner_proto.py:282-285 | Whatever follows it on the line, an encoded frame is recognised, has the length it was encoded with, and decodes to the frame that was built |
| `Frames.DecodeEncode` | host/lib/runner_proto.py:340-364 | The other direction: the bytes taken for a frame are exactly the encoding of the frame read, so no received byte of it is ignored |
| `Frames.WireLayout` | firmware/runner/proto.c:277-303 | The wire format by byte offset: magic, version, command, flags, sequence, length and CRC, every number little-endian |
| `Frames.CorruptedFrameRejected` | host/lib/runner_proto.py:358-364 | A frame with a burst of up to four damaged bytes (the length field aside) is never accepted, whatever bytes follow it |
| `HostStream.CorruptionIsSteppedOver` | host/lib/runner_proto.py:349-364 | What the host does with it instead: one byte is stepped over and kept as text, counted as a resync exactly if the magic survived, and nothing is emitted |
| `HostStream.ScanConserves` | host/lib/runner_proto.py:323-366 | Every received byte is in exactly one place: harvested text, an emitted frame, or the waiting buffer, in order |
| `HostStream.ScanAddsUp` | host/lib/runner_proto.py:323-366 | The bytes received are exactly those of the frames, of the harvested text and of the waiting buffer |
| `HostStream.JudgeSettled` | host/lib/runner_proto.py:333-366 | A decision of the parser about the front of its buffer does not depend on bytes that arrive later |
| `HostStream.ChunkingIsInvisible` | host/lib/runner_proto.py:333-377 | However the stream is cut into reads, frames, text, resyncs and waiting bytes are those of one scan of the whole stream |
| `HostStream.FramesArePrefix` | host/lib/runner_proto.py:333-366 | The frames, and the resync count, of a prefix of the stream are a prefix of, and at most, those of the stream |
| `HostStream.NoFrameIsLost` | host/lib/runner_proto.py:333-366 | A complete valid frame at any offset is emitted as it is, unless it starts inside an earlier emitted frame; it waits only behind an earlier candidate whose header or announced bytes have not all arrived, and then fewer than 4116 bytes wait |
| `HostStream.NoFrameWaitsForEver` | host/lib/runner_proto.py:333-366 | 4116 further bytes, whatever they are, and the frame has been dealt with |
| `HostStream.ResyncIffMagic` | host/lib/runner_proto.py:333-366 | Of the bytes outside every frame, a resynchronisation is counted for exactly those at which a magic starts |
| `HostStream.NoisyFramesRoundTrip` | host/lib/runner_proto.py:282-366 | Frames sent with magic-free text between them read back exactly, with exactly that text harvested, no resync and nothing left |
| `HostLink.TakeFirst` | host/lib/runner_proto.py:333-366 | One parser call takes at most one frame off the front and leaves the rest of the stream to the next calls, whatever arrives later |
| `HostLink.RunnerLink.FindMagic` | host/lib/runner_proto.py:335-335 | The first occurrence of the magic, or the end of the buffer |
| `HostLink.RunnerLink.DropNoise` | host/lib/runner_proto.py:335-345 | All noise up to the first magic is recorded; without one, all but three bytes are |
| `HostLink.RunnerLink.StepOver` | host/lib/runner_proto.py:349-364 | A bogus candidate costs one byte and one resync, and the buffer gets shorter: the loop terminates |
| `HostLink.RunnerLink.TryParse` | host/lib/runner_proto.py:333-366 | The loop in place on the buffer equals the recursive scan up to its first frame: frame, buffer, text log and resync count |
| `HostLink.RunnerLink.ReadFrame` | host/lib/runner_proto.py:368-377 | Returns the next frame the whole stream contains, whatever pieces the serial port delivers it in; fails only when the stream holds no further one |
| `FirmwareParser.SyncStopsAtFirstMagic` | firmware/runner/proto.c:661-678 | The byte-wise matcher with its one-byte fallback stops exactly at the end of the first magic of any byte stream, and starves exactly when there is none |
| `FirmwareParser.HearsThroughNoise` | firmware/runner/proto.c:661-746 | A frame built by the host, behind magic-free noise, is heard with the same command, sequence and payload, and exactly its bytes are consumed |
| `FirmwareParser.HearsEveryFrame` | firmware/runner/proto.c:661-746 | The same for any number of frames, each behind noise of its own: exactly those commands, in order |
| `FirmwareParser.CorruptionIsRefused` | firmware/runner/proto.c:722-733 | The firmware answers a frame hit by a burst of up to four bytes behind its version with a CRC refusal, never by executing it, whatever follows it on the line (the length field aside) |
| `FirmwareParser.OtherVersionCostsHeader` | firmware/runner/proto.c:700-711 | A frame of another version is reported with its command and number and costs sixteen bytes: its payload and CRC are searched for the next magic |
| `FirmwareParser.LongFrameCostsHeader` | firmware/runner/proto.c:713-720 | So does a header that announces more than 4096 payload bytes |
| `FirmwareParser.ResyncsCountNoise` | firmware/runner/proto.c:661-678 | The resynchronisations counted before a frame are none if the magic comes first, at least one for every four bytes skipped, at most one for each, and exactly that if none of the skipped bytes is the first of the magic |
| `FirmwareParser.ParseConsumes` | firmware/runner/proto.c:680-746 | Each call of the parser takes at least one byte and never more than there are |
| `Measurement.BuildRunComplete` | firmware/runner/measure.c:886-915 | Built through a moving cursor with a placeholder CRC patched afterwards, the payload is exactly header, CRC over the two slices, and 109 fields |
| `Measurement.WriteCursor.PutAll` | firmware/runner/proto.c:128-132 | The cursor writes exactly these words at its position and nothing else |
| `HostRecord.FieldPositions` | host/lib/runner_proto.py:96-131 | Every group of fields is found at the index the firmware wrote it to (47 + 55 + 7) |
| `HostRecord.RunCompleteRoundTrip` | host/lib/runner_proto.py:182-226 | For every record the host accepts the firmware's payload and decodes the same sequence, flags, rc, basic fields, PMU block and trailing words; a slot is present exactly when the valid mask has its bit, its overflow is the mask's, and the cycle count is the one the low and the high word carry |
| `HostRecord.RecordLayout` | firmware/runner/measure.c:886-1023 | The RUN_COMPLETE payload word by word: the ABI header, the three words of the run, the CRC over the two slices, and each of the 109 fields by its number |
| `HostRecord.AcceptedIffEncoded` | host/lib/runner_proto.py:182-226 | For every byte string: the host accepts it if and only if it is the encoding of a header and between 47 and 1016 fields, and then decodes those; unknown fields are counted, and an incomplete PMU block is absent |
| `HostRecord.CorruptedPayloadRefused` | host/lib/runner_proto.py:150-215 | Independently of the frame CRC, a payload hit by a burst of up to four bytes in its header words or its fields is refused (the CRC word aside) |
| `RunRecord.SlotsComeBack` | firmware/runner/measure.c:675-716 | An event slot's code and value reach the host exactly when the slot was armed and its counter did not overflow; else they are absent |
| `RunRecord.MaskWholeIffNoOverflow` | host/lib/pmu_events_parse.py:63-66 | The valid mask equals the armed mask if and only if no armed slot overflowed |
| `RunRecord.ValidityIsExact` | host/lib/pmu_events_parse.py:44-73 | The host's judgement on the decoded payload holds if and only if the run returned 0 with all required flags, its cycle counter was armed, stable, progressing and not overflowed, the seam fired once, and no armed slot overflowed |
| `DecodedRun.CyclesReachHost` | host/lib/runner_proto.py:96-131 | In both modes that count, the host decodes exactly the 48-bit count the run read, whatever it is, and vouches for it if and only if the counter and the global enable read back as set, the read was stable and the counter had not overflowed |
| `DecodedRun.RunCyclesReachHost` | firmware/runner/measure.c:640-716 | The same of the RUN_COMPLETE that an accepted RUN transmits |
| `DecodedRun.NoCyclesWhenOff` | host/lib/runner_proto.py:96-131 | With instrumentation off no count is vouched for |
| `DecodedRun.SlotsReachHost` | host/lib/runner_proto.py:117-125 | In every mode, the code, the value and the overflow of a slot are decoded if and only if it was armed in EVENTS mode and did not overflow, and then they are its own, and it has not |
| `DecodedRun.DurationsReachHost` | firmware/runner/measure.c:718-728 | The three durations are the true ones, across the wrap of the 32-bit timer |
| `DecodedRun.RecordTellsRun` | firmware/runner/measure.c:640-862 | Every field the host decodes, by name, is what the run read, was configured with or decided |
| `DecodedRun.VerdictTellsRun` | firmware/runner/measure.c:745-770 | The host's five verdict bits are, one by one, that the run completed, that the vendor returned 0, that the region is not its poison, that the window took time, and that .sec_noinit has the expected CRC; and the three CRCs are those of that poison, the region and .sec_noinit |
| `DecodedRun.MeasurementIsLastRun` | firmware/runner/measure.c:1025-1036 | After a RUN and any commands without another, resets and uploads included, GET_MEASUREMENT repeats exactly the fields of its RUN_COMPLETE |
| `BitOps.Popcount32` | firmware/runner/measure.c:416-425 | The loop that clears the lowest set bit counts the set bits |
| `Pmwl.PackThenParse` | host/lib/pmwl.py:114-197 | Everything pack accepts, parse_header accepts, and it recovers all header fields, all sixteen knob words and both tensor lists with the places of their data |
| `Pmwl.SmallestVersion` | host/lib/pmwl.py:131-136 | pack writes a version that can carry the tensors and knobs, and no smaller one can |
| `Pmwl.SectionsHoldData` | host/lib/pmwl.py:136-158 | Every section is 16-aligned, inside the blob, and holds exactly the bytes that were packed |
| `Pmwl.SectionsDisjoint` | host/lib/pmwl.py:136-158 | No two sections of a packed blob overlap |
| `Pmwl.PackedHeaderPoints` | host/lib/pmwl.py:139-158 | The sixteen header words of a packed blob, each in its place: sizes as given, and at every offset they name the bytes that were packed |
| `Pmwl.PackedPaddingIsZero` | host/lib/pmwl.py:149-158 | Between the end of a section and the next multiple of sixteen a packed blob holds zeros |
| `Pmwl.KnobsByVersion` | host/lib/pmwl.py:184-191 | Version 1 carries no knobs, version 2 the first seven, versions 3 and 4 all sixteen; the others are OFF |
| `PackAccepts.PackAcceptsExactly` | host/lib/pmwl.py:114-162 | pack takes a workload if and only if its counts match and come to at most ten, every tensor is as long as its data and inside the arena, every size, offset, given knob and the length of the blob is a word, and the command stream ends in a stop |
| `Pmwl.Align` | host/lib/pmwl.py:110-111 | The least 16-multiple that is not below |
| `PmwlPacker.PackBlob` | host/lib/pmwl.py:114-162 | The in-place packer, which writes slices into a zeroed buffer, makes exactly the specified blob or reports the specified refusal |
| `PmwlPacker.WriteSections` | host/lib/pmwl.py:149-158 | Writing each section at its offset yields the concatenation of the zero-padded sections |
| `PmwlFirmware.EntryCheckIsExact` | firmware/runner/pmwl.c:75-80 | The firmware's guarded unsigned differences refuse exactly the tensors that do not fit arena and blob: no wrap-around lets one through |
| `PmwlFirmware.CountCheckIsExact` | firmware/runner/pmwl.c:63-66 | The wrap-free count check refuses exactly the counts that are below one or sum to more than ten |
| `PmwlFirmware.CheckEntries` | firmware/runner/pmwl.c:75-80 | The loop accepts if and only if every tensor of both lists is in bounds |
| `PmwlFirmware.AcceptBlob` | firmware/runner/pmwl.c:56-80 | The firmware's header checks accept if and only if the host's parser does and the length is the uploaded one, and then both read the same header, all sixteen knob words and tensor lists; every table index stays in range |
| `PmwlFirmware.FirmwareAgreesWithHost` | host/lib/pmwl.py:165-197 | For a blob uploaded to staging that is long enough for its version, firmware acceptance over staging equals host acceptance of the blob, and the parses are equal |
| `PmwlCutOff.AcceptedInWords` | firmware/runner/pmwl.c:56-79 | Firmware acceptance, word by word: magic, version, length, both header tensors in bounds, and for version 4 the counts, first entries and bounds of the table |
| `PmwlCutOff.HostRefusesCutOff` | host/lib/pmwl.py:168-183 | A blob too short for its own header, also one of fewer than 64 bytes, is always refused by the host |
| `PmwlCutOff.CutOffKnobs` | firmware/runner/pmwl.c:56-79 | A blob of at least 64 bytes without an IO table is judged differently by the two ends if and only if its knob words are cut off and its sixteen header words fit, whatever staging holds |
| `PmwlCutOff.CompletionIsEasiest` | firmware/runner/pmwl.c:56-79 | Of all staging contents behind a cut-off blob, one that is computed from the blob alone is the easiest to accept: if any is accepted, it is |
| `PmwlCutOff.DisagreementIsExact` | firmware/runner/pmwl.c:56-79 | For every blob: some staging content makes firmware and host disagree if and only if the blob is cut off inside its header and the firmware accepts that one completion |
| `PmwlCutOff.TruncatedExampleAccepted` | firmware/runner/pmwl.c:56-79 | A concrete cut-off blob that the firmware accepts and the host refuses |
| `PmwlFirmware.FirmwareAcceptsPacked` | firmware/runner/pmwl.c:56-80 | Everything pack makes, the firmware accepts once uploaded, and reads as the host does |
| `Placement.Al256IsExact` | firmware/runner/pmwl.c:33-33 | The wrapping round-up is the true round-up for every length that leaves room for it |
| `Placement.PortsHonoured` | host/lib/pmwl.py:79-84 | The port words the host writes for a choice of ports are read by the firmware as that choice, region by region |
| `Placement.PortOfRegion` | firmware/runner/pmwl.c:17-32 | For arbitrary port words: two bits of REGIONCFG or QCONFIG pick the MEM_ATTR word whose bit 2 decides, and a word that is OFF means EXT |
| `Placement.PlacedByPort` | firmware/runner/pmwl.c:82-99 | Each region lies where its port reaches: EXT regions in S DRAM below the DDR sections, code read through SRAM in the blob, arena and fast scratch behind it in staging, a fast scratch on chip at its knob above the image |
| `Placement.OnChipIsExact` | firmware/runner/pmwl.c:92-99 | The on-chip check refuses exactly a base on the wrong port, unaligned, below the image, or whose bytes do not all lie in SRAM |
| `Placement.PlacementIsSeparate` | firmware/runner/pmwl.c:82-99 | Of every accepted blob that fits, under every knob and port setting: the arena and the fast scratch share no byte with each other, the blob or .sec_noinit, nor with the command stream and the constants wherever those are copied to S DRAM or lie in the blob, whether or not its sections overlap |
| `Placement.ArenaBeforeStart` | firmware/runner/pmwl.c:99-106 | Before the start every arena byte is the last IFM over it, else 0xA5 where an OFM covers it, else what was there |
| `Placement.CodeSeen` | firmware/runner/pmwl.c:85-89 | Whichever port it is sent through, the NPU finds the command stream and the constants the header names, unless they lie outside the blob and are read in place |
| `Placement.BlobUntouched` | firmware/runner/pmwl.c:82-106 | Placing a blob changes no byte of it and none of .sec_noinit |
| `Placement.PlacementIsTransparent` | firmware/runner/pmwl.c:82-106 | Two accepted blobs that fit and differ in their knobs alone present the NPU with the same IFM bytes and poisoned OFM bytes, and with the same command stream and constants where the blob holds them |
| `PackedPlacement.PackedIsSectioned` | host/lib/pmwl.py:114-162 | The command stream and the constants of every packed blob lie in it, apart from each other and from the data of every tensor |
| `PackedPlacement.PackedIsSeparate` | firmware/runner/pmwl.c:82-99 | If a packed blob fits, then under every port setting the placed command stream and constants are apart from each other and from every IFM's and golden reference's data, and all of them from the arena and the fast scratch |
| `PmwlRun.PlaceCode` | firmware/runner/pmwl.c:82-90 | The bump allocation in 32-bit arithmetic yields the specified layout, and memory with the code copied |
| `PmwlRun.CopyIfms` | firmware/runner/pmwl.c:103-106 | The copies read the blob, which they never overwrite |
| `PmwlRun.PrepareArena` | firmware/runner/pmwl.c:99-106 | Poisoning every OFM and then copying every IFM in place leaves the specified memory |
| `PmwlRun.TestU85` | firmware/runner/pmwl.c:44-150 | The whole wrapped test: the memory it leaves, the code it returns (0x7E refused, 0x7D a knob not honoured, else the vendor's), and the comparison it reports, refusals at every stage included |
| `PmwlRun.RunsThroughExactly` | firmware/runner/pmwl.c:56-112 | An accepted blob reaches the NPU if and only if its on-chip base, if any, is free aligned SRAM on the SRAM port and its timing profile, if any, is 1 or 2 |
| `CopyBack.CopyBackIsExact` | firmware/runner/pmwl.c:148-148 | Byte for byte: once a test has run through, the vendor's buffer holds the first OFM as the NPU left it, up to the shorter of the two, and every other byte of .sec_noinit is as it was |
| `CopyBack.OutputsAreLeft` | firmware/runner/pmwl.c:126-141 | The bytes compared with the references are, output by output, those the NPU left in the arena |
| `CopyBack.ServedIsWhatNpuLeft` | firmware/runner/proto.c:577-596 | End to end: a GET_RESULT for the vendor's buffer that is served after a RUN, whatever came between but no other RUN, names that RUN and carries the CRC of the NPU's own bytes, if the OFM fills the buffer |
| `PmwlRun.OutputsAreFew` | firmware/runner/pmwl.c:126-141 | No index of the comparison wraps: an accepted blob has at most ten outputs, none longer than the blob |
| `PmwlRun.TestKeepsByte` | firmware/runner/pmwl.c:44-150 | Whether refused at any stage or run, it changes no byte of the blob, and of .sec_noinit only the vendor's output buffer |
| `PmwlRun.TestKeepsBlob` | firmware/runner/pmwl.c:44-150 | A run never changes the blob it runs |
| `PmwlRun.IdleOutput` | firmware/runner/pmwl.c:148-148 | When the NPU wrote nothing, the vendor's buffer still receives IFM bytes or OFM poison |
| `PmwlRun.SkippedNpuStillCopies` | firmware/runner/pmwl.c:148-148 | So a run with a skipped NPU leaves .sec_noinit as it was if and only if what it copies is what already lay there |
| `OfmCompare.PositionsAreDifferences` | host/analysis/ofm_compare.py:38-45 | The positions listed are exactly those at which the strings differ, in ascending order |
| `OfmCompare.MaxAbsIsMax` | host/analysis/ofm_compare.py:38-45 | The largest difference is one, and none is larger |
| `OfmCompare.CompareIsSigned` | host/analysis/ofm_compare.py:34-45 | For all values between -128 and 127, taken modulo 256 as bytes, the comparison gives how many differ, the largest distance, which two values have and none exceeds, and the least index at which they differ |
| `OfmCompare.ComparisonIsSmall` | firmware/runner/pmwl.c:126-141 | Every number a comparison reports fits the 32-bit counters |
| `OfmCompare.PassIsCompare` | firmware/runner/pmwl.c:126-141 | A streaming pass continued over more bytes equals the simple comparison of the concatenations |
| `OfmCompare.CompareAll` | firmware/runner/pmwl.c:126-141 | The firmware's one pass over all outputs reports what the host's simple definition finds on their concatenations, first mismatch across tensor borders included, and so what is true of the signed values |
| `OfmVerdict.PackedReferences` | host/lib/pmwl.py:138-158 | The references the firmware compares with are the ones that were packed, in order |
| `OfmVerdict.TailReachesHost` | firmware/runner/measure.c:689-716 | The trailing words the host decodes are those the run recorded |
| `OfmVerdict.VerdictReachesHost` | firmware/runner/pmwl.c:126-147 | End to end, in EVENTS mode the host decodes the vendor test's own code and exactly how the NPU's outputs compare with the packed references |
| `OfmVerdict.SignedVerdictReachesHost` | host/analysis/ofm_compare.py:34-45 | The same in signed numbers: what the host decodes counts, bounds and locates the differences between the outputs and the packed references read as int8 |
| `Poison.PoisonNeverRepeats` | firmware/runner/measure.c:294-300 | The poison words of two different runs differ at every index |
| `Poison.PoisonByDifferences` | firmware/runner/measure.c:294-300 | What fixes the pattern: its first word in run 0, the run number as the difference between runs, and the multiples of 0x9E3779B9 as the differences within one |
| `Poison.PoisonBytesDiffer` | firmware/runner/measure.c:351-363 | So do the bytes written, in every aligned word of the region |
| `Poison.PoisonOutputRegion` | firmware/runner/measure.c:351-363 | The loop writes exactly that pattern to the output region, nothing else, and returns its CRC |
| `Runner.ChunkFitsIffInside` | firmware/runner/proto.c:413-440 | The two wrap-free range checks on a chunk accept exactly the non-empty chunks inside the announced length |
| `Answers.TableByCommand` | firmware/runner/proto.c:158-204 | Which command is accepted in which phase, told command by command |
| `Answers.AnswerIsExact` | firmware/runner/proto.c:606-653 | For everything that can be heard, in every state: it is refused if and only if the stated condition of that command holds, with exactly that error, its command and the phase in the NACK, and then nothing but counters and what was looked up changes; else it is acknowledged |
| `Answers.UploadAcksSay` | firmware/runner/proto.c:351-489 | The words in the acknowledgements of an upload are the announced length and the window, the place, length and bytes staged, the two CRCs, and the length of the input |
| `Answers.PhasesGoOn` | firmware/runner/proto.c:606-653 | An acknowledged command leads to its one phase from wherever it is accepted, a refused one nowhere |
| `Answers.PhaseComesBack` | host/lib/runner_proto.py:232-235 | The phase code of a NACK and a status is the host's code of that phase |
| `CounterLaws.HistoryAdds` | firmware/runner/proto.c:8-47 | Over every history each diagnostic counter goes up by exactly the bytes, resynchronisations, refusals of its kind and overruns that occurred, modulo 2^32 |
| `CounterLaws.PingTellsHistory` | host/lib/runner_proto.py:404-412 | From boot: ping() unpacks the phase the machine is in and exactly these counts, the bytes of the question included |
| `ModeControl.SetModeIsExact` | firmware/runner/measure.c:1050-1106 | SET_MODE is acknowledged if and only if the mode exists, the events fit slots and counters, and none are asked for but in EVENTS mode; then mode, set, count and codes are exactly those asked for and the reply says so, else the configuration stands |
| `ModeControl.ModeWorks` | host/lib/runner_proto.py:521-536 | Both ends: the host gets the four words of the configuration it asked for, which is in force, or a refusal, and the old one is |
| `ModeControl.ModeGoverns` | firmware/runner/measure.c:1064-1098 | Until the next SET_MODE or RESET the host decodes from every RUN the mode, set and count asked for, and in every slot that did not overflow the event asked for |
| `ModeControl.ResetTurnsOff` | firmware/runner/measure.c:1108-1149 | RESET leaves mode OFF, no events, no model and no result; run counter, event set, configuration sequence, memory and last record stay |
| `ModeControl.ResetGoverns` | firmware/runner/measure.c:1108-1149 | After a RESET every RUN decodes as made with measuring off, until a mode is set |
| `RunHistory.EveryHistory` | firmware/runner/proto.c:192-217 | From boot, under every sequence of commands, refusals, resets, corrupted frames and runs: models are verified, the run counter is the number of runs, and an offered result is the last run's, over memory as that run left it |
| `RunHistory.FreshResult` | firmware/runner/proto.c:491-596 | After any commands from boot, a GET_RESULT is acknowledged if and only if the machine is in RESULT_READY, the request names the most recent accepted RUN by its number counted from boot, that run returned 0, took time and left a region whose CRC is not its poison's, and the range lies in .sec_noinit; the CRC returned is over memory as that run left it |
| `RunHistory.FreshIffTrustworthy` | firmware/runner/proto.c:542-575 | The five freshness conditions of the code together hold if and only if the request names the run and the run returned 0 in a window that took time and left a region whose CRC is not its poison's |
| `RunHistory.RunsAreNumbered` | firmware/runner/measure.c:452-457 | The n-th accepted RUN since boot is answered by its ACK and a RUN_COMPLETE that carries number n, whatever resets and refusals lie between: numbers are never reused |
| `RunHistory.ModelsAreVerified` | firmware/runner/proto.c:459-478 | In every state reachable by runs that leave staging alone, a model has the CRC announced at LOAD_MODEL_BEGIN; PmwlHistory.PmwlModelsAreVerified removes the proviso |
| `RunHistory.OneUploadManyRuns` | host/board/run_pmu_events.py:86-98 | Until a reload or reset, any sequence of commands and of runs that leave staging alone keeps the staged blob byte for byte; PmwlHistory.PmwlRerunsKeepBlob removes the proviso |
| `RunHistory.RunKeepsModel` | firmware/runner/measure.c:351-363 | Poisoning never touches staging, so a run leaves the staged model alone if the vendor's code does |
| `PmwlHistory.PmwlHistoryIsPossible` | firmware/runner/pmwl.c:44-150 | Every sequence of events whose RUNs call the wrapped test can happen: that a RUN keeps the staged model is proved of the test at every step, not assumed |
| `PmwlHistory.PmwlModelsAreVerified` | firmware/runner/proto.c:459-478 | From boot, under every such sequence, a model has its announced CRC and results are tracked |
| `PmwlHistory.PmwlRerunsKeepBlob` | host/board/run_pmu_events.py:86-98 | Reuse of one upload is sound: until a reload or reset, any number of runs of the wrapped test and other commands leave the staged blob byte for byte as it was |
| `PmwlHistory.PackUploadRun` | host/board/run_pmu_events.py:23-29 | The whole chain: a blob that pack made and that has room is uploaded from any state that takes one, and through any number of runs after it every RUN finds the whole blob, accepted, read as packed, and placeable |
| `PmwlHistory.PmwlKeepsStaging` | firmware/runner/pmwl.c:44-150 | As a function of memory the wrapped test leaves the staged model alone |
| `MainLoop.PmwlIsWellBehaved` | firmware/runner/main.c:190-205 | The wrapped test is an environment of the kind the main loop's theorems ask for |
| `RunHistory.StepIsSound` | firmware/runner/proto.c:606-653 | One step of any kind keeps the state invariant |
| `RunHistory.SoundStatesGoOn` | firmware/runner/proto.c:606-653 | In a sound state nothing but the hardware and vendor code limits which command can come next |
| `VendorRun.PmwlRunIsPossible` | firmware/runner/pmwl.c:44-150 | The wrapped PMWL test meets the condition the machine puts on vendor code, so the history theorems apply to it |
| `VendorRun.RefusedIsNeverTrusted` | firmware/runner/pmwl.c:56-112 | A RUN whose blob is refused leaves the region as poisoned, and its result is never served |
| `VendorRun.SkippedNpuRegion` | firmware/runner/pmwl.c:148-148 | If the NPU wrote nothing, the output region is as poisoned if and only if the copied bytes are the poison at their place |
| `SkippedNpu.SkippedNpuKeepsPoison` | firmware/runner/measure.c:294-300 | If moreover no IFM lies over the copied bytes: in every run when nothing is copied, in none when more than four bytes are, and else exactly in the runs whose number ends in the bytes of one constant, which for four bytes is that single run |
| `SkippedNpu.SkippedNpuBetrayed` | firmware/runner/pmwl.c:148-148 | Two neighbouring output words whose first bytes no IFM covers suffice: then a skipped NPU leaves the region as poisoned in no run |
| `SkippedNpu.UncoveredIdleCopy` | firmware/runner/pmwl.c:99-106 | If no IFM lies over the copied bytes, what is copied back is 0xA5 throughout, for any length |
| `SkippedNpu.SkippedNpuServed` | firmware/runner/proto.c:564-575 | The gate, exactly and for every output length: the result of the n-th run, whose NPU wrote nothing, is served if and only if the code was 0, time passed, and the bytes copied back, which the blob alone decides, change the CRC of the poison of run n. So a skipped NPU whose code was 0 is caught exactly in the runs whose checksum they leave alone |
| `SkippedNpu.ShortSkippedNpuServed` | firmware/runner/proto.c:564-575 | For at most four copied bytes under no IFM that condition is one on the run number: a skipped NPU is caught, for four bytes, in a single run |
| `SkippedNpuExample.FirstRunServesAnIdleNpu` | firmware/runner/proto.c:564-575 | An input: whatever memory holds at boot, a packed 112-byte blob with a four-byte output is uploaded, its first run has an NPU that writes nothing, and GET_RESULT is acknowledged |
| `Firmware.Device.PutRaw` | firmware/runner/proto.c:26-40 | A byte is sent and counted, or refused and counted, never lost; while either flag is set nothing is sent |
| `Firmware.Device.PutBlock` | firmware/runner/proto.c:42-47 | The same for a block: sent plus counted-refused is its length |
| `Firmware.Device.SendFrame` | firmware/runner/proto.c:277-303 | Exactly the encoded frame goes on the wire and the byte counter advances by its length |
| `Firmware.Device.HandleLoadModelBegin` | firmware/runner/proto.c:351-388 | New state and reply are the machine's |
| `Firmware.Device.HandleLoadModelChunk` | firmware/runner/proto.c:390-457 | The same, repeated chunks included: a repetition is acknowledged or refused without a store, any other chunk is stored where it belongs |
| `Firmware.Device.HandleLoadModelEnd` | firmware/runner/proto.c:459-478 | The model is refused exactly when the CRC over the announced length of staging differs from the announced one; how many bytes were staged is not compared |
| `Firmware.Device.HandleLoadInput` | firmware/runner/proto.c:480-489 | The same |
| `Firmware.Device.HandleGetResult` | firmware/runner/proto.c:491-596 | The same: all gates in the code's order, and the CRC over the requested range |
| `Firmware.Device.HandleGetMeasurement` | firmware/runner/measure.c:1025-1036 | The same |
| `Firmware.Device.HandleSetMode` | firmware/runner/measure.c:1050-1106 | The same, with the refusals of unknown modes, counts and unsupported counters |
| `Firmware.Device.HandleReset` | firmware/runner/measure.c:1108-1149 | The same: measuring off, model and result dropped; run counter, event set, configuration sequence, record and counters stay |
| `Firmware.Device.Window` | firmware/runner/measure.c:538-774 | Nothing is transmitted while the window is open, every attempt is counted, and memory afterwards is what the vendor's code made of it |
| `Firmware.Device.HandleRun` | firmware/runner/measure.c:427-881 | One RUN transmits exactly its ACK and then its RUN_COMPLETE, clears both flags, and leaves record, latches, memory and counters as specified |
| `Firmware.Device.DispatchCommand` | firmware/runner/proto.c:606-653 | Each command reaches its handler |
| `Firmware.Device.SyncToMagic` | firmware/runner/proto.c:661-678 | The loop over bytes equals the recursive synchronisation, counts included |
| `Firmware.Device.ReceiveFrame` | firmware/runner/proto.c:680-733 | The blocking byte-fed reception equals the parser on the byte stream |
| `Firmware.Device.HandleHeard` | firmware/runner/proto.c:703-746 | Refusals by version, length, CRC, command or state, and otherwise the dispatch |
| `Firmware.Device.Serve` | firmware/runner/proto.c:680-746 | One pass of the main loop is exactly one step of the machine on what the stream says; if a frame never completes, nothing but counters changes |
| `Firmware.Device.constructor` | firmware/runner/main.c:190-205 | The device starts as the booted machine |
| `MainLoop.ServeAll` | firmware/runner/main.c:190-205 | The main loop over any byte stream: what it heard is what the stream says, in order; its state is the machine's after those events; it has written exactly the machine's replies |
| `MainLoop.BootAndServe` | firmware/runner/main.c:190-205 | From boot, every state the device reaches lies on a history that the theorems above speak about |
| `HostLink.RunnerLink.Request` | host/lib/runner_proto.py:385-400 | Sends one frame under the next number, and returns what the first relevant frame of the stream says, later frames unread |
| `HostLink.RunnerLink.Run` | host/lib/runner_proto.py:430-499 | Its result and count of late frames are a function of the frames that arrive, however they are cut into reads; on success the record it keeps carries the rc it returns |
| `HostLink.RunReturnsIffCompletes` | host/lib/runner_proto.py:444-499 | run() returns rc if and only if the frames show an ACK of this RUN, later a RUN_COMPLETE whose record parses to rc, and between them nothing but stragglers |
| `Requests.RequestIsSettled` | host/lib/runner_proto.py:385-400 | request() by its outcomes: the answer, the NACK with its code and two bytes, the unexpected command or silence, each if and only if the first frame under its number is of that kind, or there is none; the frames behind it stay unread |
| `Requests.RunComesTo` | host/lib/runner_proto.py:444-499 | run() by all its outcomes: each if and only if some frame ends it in that way, with only stragglers before the ACK and nothing that matters between; with the exact count of late frames and the frames left unread |
| `Refusals.ReplyReachesHost` | host/lib/runner_proto.py:385-400 | Both ends: behind any frames of other exchanges the host reports a request as refused, with the firmware's error, command and phase, if and only if the firmware refused it |
| `Refusals.RunRefusalReachesHost` | host/lib/runner_proto.py:463-464 | The same of run() behind mere stragglers, which it counts |
| `Refusals.ExchangeMeansAcknowledged` | host/board/run_pmu_events.py:23-29 | A series of requests succeeds if and only if all were delivered and acknowledged |
| `Refusals.PrimeIsHonest` | host/board/run_pmu_events.py:23-29 | prime says that it worked if and only if it did: in any sound state, with however many of its requests delivered, exactly when all were, the phase takes a model and the blob has 1 to 2^24 bytes; and then the blob is staged, verified and ready |
| `Upload.UploadDelivers` | host/board/run_pmu_events.py:23-29 | From any state that accepts a new model, the upload of any blob that fits is acknowledged frame by frame and ends ready to run with exactly the blob staged, whatever noise lies between the frames |
| `Retransmission.UploadWithRepeats` | firmware/runner/proto.c:390-440 | An upload in which every chunk is sent again at once any number of times is acknowledged frame by frame, copies included, and ends with exactly the same: the blob staged, ready to run |
| `Upload.RetransmissionChangesNothing` | firmware/runner/proto.c:390-440 | The same chunk again, right after it was accepted, gets the same answer and changes nothing but counters |
| `Upload.GrowsBy` | firmware/runner/proto.c:442-456 | Each chunk extends the staged prefix of the blob by exactly its bytes |
| `Upload.FewChunks` | host/board/run_pmu_events.py:23-29 | The upload takes as few chunks as payloads of 4096 bytes allow |
| `EndToEnd.Prime` | host/board/run_pmu_events.py:23-29 | The host's loop over offsets writes exactly the specified requests, and succeeds or stops as the replies say |
| `EndToEnd.HearsWire` | firmware/runner/proto.c:661-746 | The firmware hears exactly the requests the host writes |
| `EndToEnd.ScanWire` | host/lib/runner_proto.py:333-366 | The host reads exactly the frames the firmware writes |
| `EndToEnd.UploadWorks` | host/board/run_pmu_events.py:23-29 | Both ends joined by their bytes: the firmware, fed what the host writes, ends ready to run with the blob staged, and the host, fed what the firmware answers, sees every request succeed |
| `EndToEnd.RunWorks` | host/lib/runner_proto.py:430-499 | A RUN that the host sends and the firmware accepts makes the host return exactly the rc of that run |
| `LateFrames.RunIsNeverMistaken` | host/lib/runner_proto.py:444-499 | With any frames of earlier exchanges still unread and any frames to follow, in any history from boot: if the RUN's number is new, run() never returns another run's rc, and it returns its own if and only if no unread frame carries its number or is a RUN_COMPLETE |
| `LateFrames.StepAcks` | firmware/runner/proto.c:606-653 | The firmware sends an ACK of a RUN only in answer to a RUN of that number |
| `PmuCounter.Counter.ReadCycles` | firmware/common/npu_pmu.c:120-150 | Against a counter that advances by less than 2^32 in all, the high-low-high read is stable with at most one retry, and its value is the 48-bit counter at the instant of its last low read, carries and the 2^48 wrap included; a stable read is as exact for an advance of up to 2^48 - 2^32 |
| `PmuCounter.Agreement` | firmware/common/npu_pmu.c:120-150 | Equal high words pin the low read to one instant; unequal ones mean the one possible carry has passed |
| `CallGraph.Reachable` | firmware/gate/check_measure_symbols.py:207-228 | Exactly the nodes with a call path from a root that is in the graph, and exactly the roots that are not |
| `CallGraph.ClosedHoldsPath` | firmware/gate/check_measure_symbols.py:207-228 | A set closed under calls that holds the roots holds every node a path leads to |
| `CallGraph.ShortestPath` | firmware/gate/check_measure_symbols.py:231-251 | A genuine call path from a root to the target, and no path is shorter; the target alone when there is none |
| `CallGraph.HeadIsNearest` | firmware/gate/check_measure_symbols.py:231-251 | No path to the head of the queue is shorter than its distance |
| `CallGraph.Rebuild` | firmware/gate/check_measure_symbols.py:244-251 | Following predecessors terminates and yields a path of exactly the recorded length |
| `CallGraph.CheckTestHooks` | firmware/gate/check_measure_symbols.py:412-493 | In normal mode the gate passes if and only if the dispatch root is present, no hook symbol exists and no dispatch path reaches one; in hook mode, if and only if the root and a hook symbol are present and a path reaches one |

## Left out

* Real time: timeouts are the end of the stream, the transmit drain is not modelled, and interrupt vectors, cache
  maintenance and barriers are left out. Their readings enter the record as arbitrary words.
* The functional-v1 variant of the run path; only measure-v2 is modelled.
* The payload of GET_CAPABILITIES, which is arbitrary here, and the field-by-field meaning of the basic record.
* The vendor's `u85.c`, the NPU's computation and the timing-adapter registers: what they do to memory is arbitrary within
  what they may write, and whether every register read back as written is an input of `PmwlRun.TestU85`.
* The receive overrun flag polled byte by byte, and the single byte that a RUN discards from the receive buffer after its
  window.
* `knobs()` apart from its port words, and the host's `get_result` and `reset_runner` beyond request and reply.
* The "model" mode of `run_validity`, `event_sets`, `verdict`, `consistency` and `check_coverage`: short case splits.
* The denylist's symbol patterns, the object-dump and map-file parsing, `check_injections` and the gate's log text.
* The decoding of text-log lines: harvested text is raw bytes.
* The statistics, fingerprint tables, board scripts and build files.
- Placement.PlacementIsSeparate: assumes that the regions fit their windows and that the two code sections end before the address space does, because the code checks neither; promises nothing about code outside the blob that the NPU reads in place. PackedPlacement.PackedIsSeparate says it of every packed blob that fits.
- Placement.CodeSeen: promises nothing about code outside the blob that is read in place, because the arena or the fast scratch may lie over it.
- Placement.PlacementIsTransparent: promises the code bytes only where the blob holds them, for the same reason.
- PmwlRun.TestU85: assumes that the blob it accepts fits, as Placement.PlacementIsSeparate does; takes whether every knob register read back as written as an input, because the registers are hardware.
- RunHistory.FreshResult: assumes fewer than 2^32 runs since boot, because the run counter is 32 bits wide.
- RunHistory.RunsAreNumbered: assumes the same.
- FirmwareParser.CorruptionIsRefused: does not cover a burst that changes the length field, with which another number of bytes would be read.
- Frames.CorruptedFrameRejected: does not cover a burst that changes the length field either.
- RunHistory.ModelsAreVerified: takes it for granted that vendor code leaves the staged model alone, so that it holds for any such code; PmwlHistory.PmwlModelsAreVerified does not.
- RunHistory.OneUploadManyRuns: takes the same for granted; PmwlHistory.PmwlRerunsKeepBlob does not.
- RunHistory.RunKeepsModel: takes the same for granted; PmwlRun.TestKeepsBlob proves it of the wrapped test.
- PmwlHistory.PmwlRerunsKeepBlob: asks each RUN to meet a blob that fits, if it is accepted; PmwlHistory.PackUploadRun derives that for packed blobs with room.
- MainLoop.PmwlIsWellBehaved: says nothing about memory after the test has run an accepted blob that does not fit, which the firmware does not check.
- SkippedNpu.SkippedNpuServed: leaves its condition as an equality of two CRCs of known bytes; only up to four copied bytes is it worked out as a condition on the run number.
- HostRecord.CorruptedPayloadRefused: does not cover a burst that reaches the CRC word, which lies inside what it protects.
- EndToEnd.RunWorks: is about a stream that holds this run's two frames; LateFrames.RunIsNeverMistaken is about any other.
- Upload.RetransmissionChangesNothing: is about one repetition of one chunk; Retransmission.UploadWithRepeats is about uploads.
- Firmware.Device.HandleRun: calls the vendor's code as an arbitrary change of memory that leaves the staged model alone; VendorRun.PmwlRunIsPossible and PmwlHistory prove that the wrapped test is such a change, rather than the method calling PmwlRun.TestU85 itself; the return code of a RUN is that of the vendor's own caller of the test, which is not part of this model.
- MainLoop.ServeAll: is stated for a finite number of passes of a loop that never ends.
- PmuCounter.Counter.ReadCycles: is exact when the counter advances by less than 2^32 during the call, and a stable read when by at most 2^48 - 2^32; a faster counter is only known to give the right low word.
- HostLink.RunnerLink.ReadFrame: a timeout is the end of the stream, so a read that gives up while bytes are still on their way is not modelled.
