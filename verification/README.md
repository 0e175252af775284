# Verified models of the intercom's algorithms

Dafny models of the self-contained algorithms of the intercom repository, each with its outside world reduced to a small
interface, and proofs of what they promise. `dafny verify dfyconfig.toml` checks everything.

- **1-Wire search.** The bus is a set of 64-bit device codes; a reset wakes all of them, a read answers the wired-AND of
  the live devices' current bits and then of the complements, a write deselects. `search` and `alarmSearch` are
  resumable walks of the code trie whose only memory is the last path and one junction. Over whole runs of calls both
  enumerate the devices in order, each once.
- **CRC8 and CRC16.** The table, bitwise and parity forms against polynomial division.
- **SHA-2.** Every build of the block functions against sections 6.2.2 and 6.4.2 of FIPS 180-4, and
  `Init; Update*; Final` against the hash of the concatenation. SHA-256 and SHA-512 share one model, `Suite`.
- **Automatic gain control.** Peak ring, power averages, gain choice, ramp and loudness histogram on machine-sized numbers.
- **Frame memory, references, thinning.** The block cache as a ledger, reference counts and the order of every
  request's frames over all interleavings of the lock-protected steps, and the 16.16 rate gate.
- **Camera stream.** The MPEG4 framer for every way recv may cut the stream, and the running average.
- **Packet protocol, base64.** Round trips through encoder and decoder.
- **Echo canceller.** The latency buffers with capture split where it drops its lock, and the fixed-point high-pass filter.

Classes mirror the source's classes and update the same fields; their contracts tie them to functions on values, about
which the lemmas speak. Memory is unbounded; integer widths, truncation and rounding are written out where they matter.

Where the code does not do what it or its comments say:

- `OneWire::search` promises to find every device. It does so iff no device has family byte 0. Such a device sorts first,
  the test of `ROM_NO[0]` rejects it and restarts the search, so every call returns FALSE, on a bus with the code zero alone
  for instance. `alarmSearch` has no such test.
- `resetAlarmSearch` clears seven of the eight address bytes. It does not matter: the walk never reads a bit it has not
  written.
- `pjs_agc` takes any maximal gain and target level. No product overflows on any run iff the maximal gain is at most 29 or
  the target level at most 22361.
- `FrameMemoryAllocator` looks for the best fit, but stops at the projected size. It returns the smallest fitting block iff
  no block of the projected size stands in a slot before every block of exactly the requested size while there is one.
- `post_data` notes a chunk that is too large, but later tests overwrite that note. The chunk is reported iff its first byte
  is the prefix byte awaited or a nonzero length; inside the body it is never reported.
- `OnVideoFrame` tests for I-frames, but the only frame types put to the test are I-frames, so it never holds a frame back.
- `post_data` does not compare the announced length with its buffer: a complete transmission stays inside iff that length
  fits. `CameraThread` compares the announced size with 512K only to close the connection, and goes on receiving: the next
  request stays inside iff the size is 0 to 512K.
- `base64_encode` reserves room for line feeds and counts line lengths, but writes no line feeds. The empty input is encoded
  as the empty text, which `base64_decode` answers with NULL.
- The weighted sum of `avr_counter` is that of a weighted moving average iff n times the first value since the reset equals
  the window's total, because that first value keeps its weight for ever. What is shown is then the average, and otherwise
  lies as far from it as the difference of the two makes, up to rounding.
- `IIR_HP` comes to rest up to 100/16384 below a constant input, but never above it. Its cut to 16 bits changes a sample
  iff the state is more than 542265766 below or 542265768 above the scaled input, as when the greatest sample follows a
  filter settled on the least, which returns -653.

## Model

| member | source | states |
|---|---|---|
| RomOrder.OrderIsSortedListing | Arduino/OneWire_ChibiOS.cpp:311-427 | the reference answer: the sorted listing of a device set, each code exactly once, in lexicographic order from bit 0 |
| RomOrder.PathToTarget | Arduino/OneWire_ChibiOS.cpp:345-386 | at any bit of a pass, what the wired-AND bus answers for the devices still taking part, together with the direction rule, leads exactly to the successor of the stored code; the last fork taken to 0 is the successor's last junction |
| RomOrder.NextBranchesAtLastJunction | Arduino/OneWire_ChibiOS.cpp:359-371 | the successor of a code in the listing shares its path up to its last junction and takes 1 there |
| RomOrder.NoJunctionIffLast | Arduino/OneWire_ChibiOS.cpp:406-411 | a code is the last of the listing iff no bit of it is a junction |
| RomOrder.TargetAtPosition | Arduino/OneWire_ChibiOS.cpp:359-371 | whatever was returned before, the stored code and the last discrepancy identify the next code of the listing |
| RomOrder.ExhaustedIffNoJunction | Arduino/OneWire_ChibiOS.cpp:409-411 | `LastDeviceFlag` is raised exactly at the last code |
| RomOrder.NoFamilyComesFirst | Arduino/OneWire_ChibiOS.cpp:417-424 | a device with family byte 0 sorts first, so the very first call already decides whether the family test ever rejects |
| RomBytes.BitsOfUpdate | Arduino/OneWire_ChibiOS.cpp:378-398 | setting or clearing through the running byte and mask changes exactly bit i of the code |
| RomBytes.BitsInjective | Arduino/OneWire_ChibiOS.cpp:425 | an 8-byte buffer and its 64-bit code determine each other |
| RomBytes.FirstByteIsFamily | Arduino/OneWire_ChibiOS.cpp:417-418 | `ROM_NO[0]` is zero iff the first eight bits of the code are |
| OneWireBus.OneWire.Reset | Arduino/OneWire_ChibiOS.cpp:119-147 | presence iff there is a device; afterwards no device takes part in a search until a command |
| OneWireBus.OneWire.ReadBit | Arduino/OneWire_ChibiOS.cpp:181-197 | the line is high iff no live device pulls it low, for the bit and then for its complement |
| OneWireBus.OneWire.WriteBit | Arduino/OneWire_ChibiOS.cpp:153-175 | devices whose current bit differs drop out, the others advance one bit |
| OneWireBus.OneWire.Direction | Arduino/OneWire_ChibiOS.cpp:354-376 | the branch at one bit and the new `last_zero` |
| OneWireBus.StoreBit | Arduino/OneWire_ChibiOS.cpp:378-383 | one bit of the ROM buffer changes and no other |
| OneWireBus.OneWire.ResetSearch | Arduino/OneWire_ChibiOS.cpp:282-293 | the search stands before the first device |
| OneWireBus.OneWire.Walk | Arduino/OneWire_ChibiOS.cpp:342-401 | the bit loop ends after 64 bits with the target in `ROM_NO` and `last_zero` at its last junction |
| OneWireBus.OneWire.Search | Arduino/OneWire_ChibiOS.cpp:311-427 | from position k a call returns the k-th device of the sorted listing and moves to k + 1; it returns FALSE and starts over after the last device, on an empty bus, and iff some device has family byte 0 already on the first call |
| DallasTemperature.SearchRun | Arduino/OneWire_ChibiOS.cpp:282-427 | after a reset, any number of calls answers the listing, one FALSE, the listing again, and so on; every answer FALSE if some device has family byte 0 |
| DallasTemperature.NextPhase | Arduino/OneWire_ChibiOS.cpp:417-424 | the position within a round after one more call |
| DallasTemperature.ValidityOfBuffer | Arduino/DallasTemperature.cpp:66-69 | comparing the last byte with the checksum of the first seven is testing the code: all eight bytes together divide exactly |
| DallasTemperature.ResidueOfBuffer | Arduino/DallasTemperature.cpp:66-69 | the checksum of seven bytes equals the eighth iff the checksum of all eight is 0 |
| DallasTemperature.DallasTemperature.ValidAddress | Arduino/DallasTemperature.cpp:66-69 | true iff the code of the buffer divides exactly |
| DallasTemperature.CountOfListing | Arduino/DallasTemperature.cpp:43-55 | counting along the listing counts each valid device once |
| DallasTemperature.ValidOnlyIsSortedListing | Arduino/DallasTemperature.cpp:680-690 | the codes handed to the handler are the sorted listing of the valid alarming devices |
| DallasTemperature.DallasTemperature.Begin | Arduino/DallasTemperature.cpp:35-57 | `devices` counts, modulo 256, the devices whose code carries a valid checksum |
| DallasTemperature.DallasTemperature.GetAddress | Arduino/DallasTemperature.cpp:73-86 | true iff the index-th device of the listing exists and has a valid checksum, and then its address; at index 255 on buses of at most 256 devices |
| DallasTemperature.DallasTemperature.ResetAlarmSearch | Arduino/DallasTemperature.cpp:564-570 | the alarm search stands before the first alarming device although one address byte is not cleared |
| RomOrder.AlarmStep | Arduino/DallasTemperature.cpp:596-642 | one bit of an alarm pass: following a unanimous answer, repeating, turning or blazing a junction keeps the path to the next code, and `alarmSearchJunction` and `lastJunction` together hold the last pending junction |
| RomOrder.AlarmEnd | Arduino/DallasTemperature.cpp:644 | after 64 bits `done` says that no junction is pending, and the junction kept is the code's last |
| RomOrder.PendingAtPosition | Arduino/DallasTemperature.cpp:586-590 | the stored junction and address identify the next code of the listing |
| DallasTemperature.DallasTemperature.AlarmFork | Arduino/DallasTemperature.cpp:607-633 | the branch and the bookkeeping at one fork, `char` index -1 included |
| DallasTemperature.DallasTemperature.AlarmWalk | Arduino/DallasTemperature.cpp:596-642 | the 64-bit loop reaches the next alarming code |
| DallasTemperature.DallasTemperature.AlarmSearch | Arduino/DallasTemperature.cpp:584-647 | from position k a call returns the k-th alarming device; once exhausted every call is false |
| DallasTemperature.AlarmRun | Arduino/DallasTemperature.cpp:564-647 | after a reset, any number of calls answers the sorted listing of the alarming devices once and then false for ever |
| DallasTemperature.DallasTemperature.ProcessAlarms | Arduino/DallasTemperature.cpp:680-690 | the handler sees exactly the alarming devices with a valid checksum, in listing order |
| DallasTemperature.ZeroCodeIsNeverFound | Arduino/OneWire_ChibiOS.cpp:417-424 | a concrete bus on which the search fails: the device with code zero alone is never found by any call, though the alarm search finds it |
| DallasTemperature.SearchesAgree | Arduino/DallasTemperature.cpp:572-647 | the two searches give the same answers call by call up to the first miss iff every device has a nonzero family byte; after it one starts over and the other does not |
| Crc.TableEntry | Arduino/OneWire_ChibiOS.cpp:439-455 | every entry of the 256-byte table is eight bits of division of its index by the reflected polynomial 0x8C |
| Crc.TableCrc8 | Arduino/OneWire_ChibiOS.cpp:464-472 | the table loop computes the polynomial remainder |
| Crc.BitwiseCrc8 | Arduino/OneWire_ChibiOS.cpp:478-492 | the bit loop computes the same remainder |
| Crc.Crc8Linear | Arduino/OneWire_ChibiOS.cpp:464-492 | the checksum of the XOR of two messages of one length is the XOR of their checksums |
| Crc.Crc8Residue | Arduino/OneWire_ChibiOS.cpp:464-492 | message plus one byte gives 0 iff that byte is the checksum |
| Crc.Crc8DetectsByteChange | Arduino/OneWire_ChibiOS.cpp:464-492 | changing any one byte, so flipping any bit, changes the checksum |
| Crc.FeedbackDivides | Arduino/OneWire_ChibiOS.cpp:504-521 | the parity of a byte and its two shifts are eight bits of division by the reflected polynomial 0xA001 |
| Crc.Byte16Closed | Arduino/OneWire_ChibiOS.cpp:512-521 | absorbing a byte moves the high byte down and adds the feedback of the low byte |
| Crc.AbsorbByParity | Arduino/OneWire_ChibiOS.cpp:509-521 | one pass of the loop absorbs one byte |
| Crc.ParityCrc16 | Arduino/OneWire_ChibiOS.cpp:502-524 | the parity loop computes the bitwise remainder |
| Crc.Crc16Linear | Arduino/OneWire_ChibiOS.cpp:502-524 | XOR-linear for equal lengths |
| Crc.Crc16Residue | Arduino/OneWire_ChibiOS.cpp:502-524 | message plus two bytes gives 0 iff they are the checksum, low byte first |
| Crc.Crc16DetectsByteChange | Arduino/OneWire_ChibiOS.cpp:502-524 | changing any one byte changes the checksum |
| Crc.CheckCrc16 | Arduino/OneWire_ChibiOS.cpp:496-500 | accepts iff message and complemented trailer divide exactly |
| Sha2Spec.PaddingCompletesBlock | intercom/crypto/md32_common.h:352-361 | the padding of section 5.1 of FIPS 180-4 is the shortest that completes a block |
| Sha2Spec.AbsorbConcat | intercom/crypto/md32_common.h:299-336 | absorbing x + y is absorbing the whole blocks of x and then what is left of x in front of y |
| Sha2Spec.WholeAndRest | intercom/crypto/md32_common.h:322-336 | division with remainder by the block size cuts a message into its whole blocks and its tail |
| Sha2Spec.ToBytesSplits | intercom/crypto/sha512.c:133-153 | a two-word number is stored as its high word followed by its low word |
| Sha2Spec.ScheduleGroupings | intercom/crypto/sha512.c:472-474 | the two orders in which the code adds a schedule word equal the standard's |
| Sha2Constants.RoundConstants | intercom/crypto/sha512.c:304-344 | one constant for each of 64 or 80 rounds: the first 32 or 64 bits of the fraction of the cube root of the next prime; stated by cubing |
| Sha2Constants.Initial256 | intercom/crypto/sha256.c:29-39 | SHA-256 starts from 32 bits of the fractions of the square roots of the first eight primes; stated by squaring |
| Sha2Constants.Initial512 | intercom/crypto/sha512.c:102-109 | SHA-512 from 64 bits of them |
| Sha2Constants.Initial384 | intercom/crypto/sha512.c:73-80 | SHA-384 from 64 bits of those of the next eight primes |
| Sha2Constants.Initial224 | intercom/crypto/sha256.c:18-27 | SHA-224 from the second 32 bits of the latter |
| Sha2Constants.ChooseBits32 | intercom/crypto/sha256.c:145 | Ch takes the bits of y where x has ones and of z where it has zeros |
| Sha2Constants.ChooseBits64 | intercom/crypto/sha512.c:431 | the same for 64 bits |
| Sha2Constants.MajorityBits32 | intercom/crypto/sha256.c:146 | where two operands of Maj agree, Maj agrees with them |
| Sha2Constants.MajorityTurns32 | intercom/crypto/sha256.c:146 | turning the three operands around changes nothing |
| Sha2Constants.MajorityBits64 | intercom/crypto/sha512.c:432 | the same for 64 bits |
| Sha2Constants.MajorityTurns64 | intercom/crypto/sha512.c:432 | the same for 64 bits |
| Sha2Constants.LeftRotations512 | intercom/crypto/sha512.c:422-429 | the right rotations of the 64-bit functions are left rotations by 64 less as much |
| Sha2Constants.DigestWords | intercom/crypto/sha256.c:85-103 | word i of the digest reads back as register i |
| Sha2Macros.FirstByteFirst | intercom/crypto/md32_common.h:224-237 | the first byte of a word weighs most |
| Sha2Macros.LoadAfterStore | intercom/crypto/md32_common.h:224-237 | loading a stored number gives what fits in so many bytes |
| Sha2Macros.PaddingBytes | intercom/crypto/md32_common.h:352-372 | the padding is the byte 80, zeros, and the bit length in the last 8 or 16 bytes |
| Sha2Macros.LeftIsRight | intercom/crypto/md32_common.h:192-194 | a left rotation by n is a right rotation by 32 - n |
| Sha2Macros.Macros256 | intercom/crypto/sha256.c:135-143 | the four sigma macros, written with left rotations, are the functions of section 4.1.2 of FIPS 180-4 |
| Sha2Macros.MacrosAreStandard | intercom/crypto/sha256.c:135-143 | so the macros that the block functions use are the standard's functions on words |
| Sha2Macros.StoreAfterLoad | intercom/crypto/md32_common.h:224-237 | storing a loaded word restores its bytes |
| Sha2Blocks.ScheduleFromWindow | intercom/crypto/sha256.c:173-176 | sixteen cells in a circle hold every operand of the next word of the 64- or 80-word schedule |
| Sha2Blocks.ExpandWord | intercom/crypto/sha256.c:173-176 | the in-place update leaves the window one word further on |
| Sha2Blocks.RotatedRound | intercom/crypto/sha256.c:191-194 | a round that renames registers instead of moving them is a round of section 6.2.2 |
| Sha2Blocks.ShiftedRound | intercom/crypto/sha256.c:165-168 | a round that moves every register is a round of section 6.2.2 |
| Sha2Blocks.CompactBlock | intercom/crypto/sha256.c:157-186 | the compact loop computes the chaining value of section 6.2.2 or 6.4.2 |
| Sha2Blocks.UnrolledBlock256 | intercom/crypto/sha256.c:202-276 | so does the SHA-256 form unrolled by eight with rotated argument names |
| Sha2Blocks.UnrolledBlock512 | intercom/crypto/sha512.c:541-627 | so does the SHA-512 form unrolled by sixteen |
| Sha2Blocks.SlideStep | intercom/crypto/sha512.c:476-481 | one round of the sliding array: the three cells overwritten have been read for the last time, and the histories and the schedule move up by one |
| Sha2Blocks.SlidingWord | intercom/crypto/sha512.c:472-474 | the schedule word read from the cells above is the standard's |
| Sha2Blocks.SlidingRound | intercom/crypto/sha512.c:476-481 | the rest of the round |
| Sha2Blocks.SlidingBlock512 | intercom/crypto/sha512.c:440-491 | so does the i386 form, where one 89-word array holds both register histories and the schedule |
| Sha2Blocks.BlockDataOrder | intercom/crypto/sha512.c:435-627 | every build absorbs any number of blocks alike |
| Sha2Stream.CounterAdvances | intercom/crypto/md32_common.h:291-297 | adding the shifted length with carry and overflow keeps `Nh:Nl` equal to the bit count modulo two words |
| Sha2Stream.HashContext.Count | intercom/crypto/sha512.c:228-231 | the same for the 64-bit words |
| Sha2Stream.HashContext.Md32Update | intercom/crypto/md32_common.h:282-338 | for every piece: `num` is less than a block, the buffer holds exactly the tail, `h` the chaining value of the whole blocks, the counter the length |
| Sha2Stream.HashContext.Sha512Update | intercom/crypto/sha512.c:220-269 | the same, for aligned and unaligned data |
| Sha2Stream.HashContext.StoreMark | intercom/crypto/md32_common.h:352-360 | 0x80 and, when the length does not fit, a block of its own |
| Sha2Stream.FinalBlocks | intercom/crypto/md32_common.h:347-372 | buffered bytes, mark, zeros and counter words are message tail plus padding, in one block or two |
| Sha2Stream.HashContext.PadAndCompress | intercom/crypto/sha512.c:121-155 | the final chaining value is that of the padded message |
| Sha2Stream.HashContext.StoreDigest | intercom/crypto/sha256.c:85-103 | the first words, most significant byte first |
| Sha2Stream.HashContext.Md32Final | intercom/crypto/md32_common.h:347-383 | the FIPS 180-4 hash of everything fed, or failure iff the digest length exceeds 32 bytes |
| Sha2Stream.HashContext.Sha512Final | intercom/crypto/sha512.c:121-215 | the FIPS 180-4 hash, or failure iff there is no output buffer or the digest length is neither 48 nor 64 |
| Sha2Stream.HashInPieces256 | intercom/crypto/sha256.c:18-66 | `Init`, any `Update`s, `Final`: the SHA-224 or SHA-256 hash of the concatenation, for every way of cutting and every build |
| Sha2Stream.HashInPieces512 | intercom/crypto/sha512.c:58-272 | the same for SHA-384 and SHA-512 |
| Agc.NextGainBounds | intercom/pjs_gaincontrol.h:169-219 | for every action the new gain stays between the minimum and maximum gain, is never more than the recent peak allows |
| Agc.GainFollowsHeadroom | intercom/pjs_gaincontrol.h:175-219 | the gain climbs exactly while there is headroom, by a bounded step, and a loud peak pulls it down at once |
| Agc.EchoLowersGain | intercom/pjs_gaincontrol.h:189-219 | echo takes the gain down by one step, to the minimum or to one, silence keeps it, exactly so while the recent peak allows the old gain; neither ever raises it above one |
| Agc.RampGainBetween | intercom/pjs_gaincontrol.h:225-228 | the ramp never leaves the interval between its two ends |
| Agc.ScaledFits | intercom/pjs_gaincontrol.h:223-231 | a sample no larger than the recent peak times a gain no larger than that peak allows is at most the larger of target level and peak |
| Agc.LoudnessMean | intercom/pjs_gaincontrol.h:102-118 | the histogram loop's quotient is the mean of the loudest samples |
| Agc.FewAreLouder | intercom/pjs_gaincontrol.h:102-118 | at most a sixteenth of a block's samples are louder than its loudness, which is at most its peak |
| Agc.SafeRuns | intercom/pjs_gaincontrol.h:79-234 | with a maximal gain of at most 29 or a target level of at most 22361 every product of the gain step fits 32 bits and the gain stays in range, over every run of blocks |
| Agc.HotRun | intercom/pjs_gaincontrol.h:79-234 | with a maximal gain of 30 or more and a target level of 22362 or more there is a run that takes the gain to 1907180 or above |
| Agc.NextOverflows | intercom/pjs_gaincontrol.h:179 | from there one more loud block makes a product of 2^31 or more |
| Agc.OverflowFreeIff | intercom/pjs_gaincontrol.h:54-62 | for every configuration: no product of the gain step overflows on any run iff the maximal gain is at most 29 or the target level at most 22361 |
| GainLaws.SmoothMoves | intercom/pjs_gaincontrol.h:129-134 | a smoothed power moves 52/1024 of the way to the new value, rounded down, and never past it |
| GainLaws.SumAbsAt | intercom/pjs_gaincontrol.h:86-97 | one sample enters the total with its magnitude |
| GainLaws.LoudnessAt | intercom/pjs_gaincontrol.h:105-117 | one sample counts once, with its magnitude, from every level up to it |
| GainLaws.PeakAttained | intercom/pjs_gaincontrol.h:88-93 | the peak is some sample's magnitude |
| GainLaws.BlockPowerIs | intercom/pjs_gaincontrol.h:98 | the block's power is its mean magnitude times the target over the expected level, rounded down and cut to 32767 |
| GainLaws.RecentPeakIs | intercom/pjs_gaincontrol.h:120-126 | the recent peak is the greatest of the last 25 block peaks |
| GainLaws.MaxGainIsLargest | intercom/pjs_gaincontrol.h:169-171 | the gain allowed is the largest that scales the peak to the target level at most, and at least one |
| GainLaws.EchoChooses | intercom/pjs_gaincontrol.h:127-219 | a block of peak 700 or more while the other side is heard: with a the smoothed own power, at least 1, reverse power of 11a or more, or handsfree and 500 or more, takes the gain down a step to the minimum at most; 6a to 11a, a step but not below one; 3a to 6a leaves it; below 3a it follows the headroom |
| GainLaws.WithoutEcho | intercom/pjs_gaincontrol.h:127-219 | the other side silent, the gain follows the headroom: exactly when it rises, by how much, and how far a loud peak takes it down; quiet blocks never raise it; in silence only the peak is stored |
| GainLaws.UpIsHeadroom | intercom/pjs_gaincontrol.h:175-219 | the gain after a step up, as steps of 3276, the limit 65536 and the ratios 1126, 972 and 921 over 1024 |
| GainLaws.RampGoesAcross | intercom/pjs_gaincontrol.h:225-228 | the ramp starts at the old gain and ends less than its number of steps short of the new one |
| GainLaws.RampStepsEqual | intercom/pjs_gaincontrol.h:225-228 | all its steps are equal |
| Agc.RingPush | intercom/pjs_gaincontrol.h:120-122 | storing at the ring position makes the new peak the most recent and drops the oldest of 25 |
| Agc.RingMax | intercom/pjs_gaincontrol.h:123-126 | the largest cell is the largest of the last 25 block peaks |
| Agc.Agc.constructor | intercom/pjs_gaincontrol.h:54-62 | a fresh controller: unit gain, no peaks, gain range and levels as configured; for every configuration that cannot overflow |
| Agc.Agc.Measure | intercom/pjs_gaincontrol.h:86-98 | peak, sum of magnitudes and histogram of the block |
| Agc.Agc.Loudness | intercom/pjs_gaincontrol.h:102-118 | mean magnitude of the loudest samples, whole magnitudes from the top until more than a sixteenth of the block |
| Agc.Agc.PushPeak | intercom/pjs_gaincontrol.h:120-126 | the largest of the last 25 block peaks |
| Agc.Agc.Direction | intercom/pjs_gaincontrol.h:129-167 | both smoothed powers, without overflow, and the direction they choose; EchoChooses says what that means for the gain |
| Agc.Agc.Stride | intercom/pjs_gaincontrol.h:175-203 | the step in the chosen direction, without overflow |
| Agc.Agc.StepGain | intercom/pjs_gaincontrol.h:175-219 | the gain after the block, without overflow |
| Agc.Agc.UpdateGain | intercom/pjs_gaincontrol.h:127-219 | gain and start of the ramp both allowed by the recent peak |
| Agc.Agc.ApplyRamp | intercom/pjs_gaincontrol.h:223-231 | the block is scaled in place by the ramp and stays within bounds |
| Agc.Agc.Process | intercom/pjs_gaincontrol.h:79-234 | one block: gain, powers and peaks advance as the run model says, no 32-bit overflow, every output at most the larger of the target level and the largest of the last 25 peaks, output equal to the ramped input, loudness as specified |
| FrameAllocator.TakeKeepsLedger | wapa_httpd/wapa_http_server.h:163-169 | a hit moves one block from its slot to the client |
| FrameAllocator.StoreKeepsLedger | wapa_httpd/wapa_http_server.h:197-205 | a cached block moves from the client to an empty slot |
| FrameAllocator.ReleaseKeepsLedger | wapa_httpd/wapa_http_server.h:208-216 | a block that is not cached is released once |
| FrameAllocator.OneSlot | wapa_httpd/wapa_http_server.h:109-115 | emptying a slot releases its block; no two slots hold one block |
| FrameAllocator.SearchStep | wapa_httpd/wapa_http_server.h:145-161 | one more slot: whether it replaces the best so far and whether it ends the search |
| FrameAllocator.ChosenIsUnique | wapa_httpd/wapa_http_server.h:145-162 | the slot the search settles on is determined by the slots and the request |
| FrameAllocator.BestFitUnlessShadowed | wapa_httpd/wapa_http_server.h:143-162 | the search returns the smallest fitting block iff no slot of the projected size comes before every slot of exactly the requested size while there is one; always, when the request is not a multiple of the size step |
| FrameAllocator.BestFitMissed | wapa_httpd/wapa_http_server.h:143-162 | a miss: with two and one size steps cached in this order, a request of one step gets the larger block |
| FrameAllocator.MissBestFit | wapa_httpd/wapa_http_server.h:134-217 | and a client that reaches it: three allocations and two releases on a fresh allocator whose smallest size is below the size step |
| FrameAllocator.FrameMemoryAllocator.constructor | wapa_httpd/wapa_http_server.h:124-132 | an empty cache with the configured smallest size, capacity and size step |
| FrameAllocator.FrameMemoryAllocator.Malloc | wapa_httpd/wapa_http_server.h:177-183 | a block of that size that nobody has |
| FrameAllocator.FrameMemoryAllocator.FindBlock | wapa_httpd/wapa_http_server.h:142-162 | despite both early exits: a miss iff nothing fits, else the one slot the search settles on: the first of projected size with nothing as small before it, or the first of the smallest |
| FrameAllocator.FrameMemoryAllocator.Reset | wapa_httpd/wapa_http_server.h:107-121 | every cached block is released, once |
| FrameAllocator.FrameMemoryAllocator.Alloc | wapa_httpd/wapa_http_server.h:134-186 | a block that malloc gave at least the requested size, and the size it was given; a cached block iff one fits; a miss on a full cache is counted, a hit and the eleventh miss set the count to 0, and the eleventh alone empties the cache; every block stays with the client, in one slot, or released |
| FrameAllocator.MissInARow | wapa_httpd/wapa_http_server.h:170-184 | up to ten misses in a row on a full cache are counted and release nothing |
| FrameAllocator.EleventhMiss | wapa_httpd/wapa_http_server.h:170-184 | eleven of them: the cache is empty and exactly the blocks it held were released |
| FrameAllocator.FrameMemoryAllocator.Free | wapa_httpd/wapa_http_server.h:188-217 | the block given back is cached with its size in the first empty slot iff it is large enough and there is room, else released; nothing else changes |
| FrameRefs.OwnedAfterUpdate | wapa_httpd/wapa_http_server.h:326-336 | changing one request exchanges its references and no others |
| FrameRefs.OwnedAfterRemove | wapa_httpd/wapa_http_server.cpp:530-534 | removing a request removes its references and no others |
| FrameRefs.ReleaseCounted | wapa_httpd/wapa_http_server.h:254-264 | one reference less, counted; the frame goes with the last |
| FrameRefs.AddReferenceCounted | wapa_httpd/wapa_http_server.h:247-252 | one reference more, counted |
| FrameRefs.StepKeepsInvariant | wapa_httpd/wapa_http_server.cpp:456-534 | every step of publishing, offering, dropping, sending, connecting and disconnecting keeps: `m_counter` equals the references, frames without any are deleted, none twice, no queue exceeds 7; deletions are never undone |
| FrameRefs.EveryRun | wapa_httpd/wapa_http_server.cpp:456-534 | so after every interleaving of steps |
| FrameRefs.DeletedAtLastReference | wapa_httpd/wapa_http_server.h:254-264 | a frame is deleted in exactly the step of a run that takes its last reference away |
| FrameRefs.NothingLeaks | wapa_httpd/wapa_http_server.h:305-309 | with no request left and no thread at work every frame ever made has been deleted |
| FrameRefs.OfferOutcome | wapa_httpd/wapa_http_server.h:343-392 | an offer has three outcomes: the frame behind the queue, refused by the rate gate, or refused by a full queue, which makes the request wait for an I-frame |
| FrameRefs.StepKeepsOrder | wapa_httpd/wapa_http_server.h:326-336 | every step keeps: what a request's sender has taken, followed by its queue, is what was accepted for it, in order; the frame being sent is the one taken last |
| FrameRefs.SentInOrder | wapa_httpd/wapa_http_server.h:326-392 | so over every interleaving each sender gets exactly the frames accepted, in the order of acceptance |
| FrameRefs.ConnectedRequest | wapa_httpd/wapa_http_server.h:290-303 | a new request comes last in the list, wants a header and an I-frame, and has nothing queued |
| FrameRefs.ConnectedRequestThins | wapa_httpd/wapa_http_server.h:290-379 | asked for one frame in every interval, a new request passes all of n offers at interval c if the interval is at most c + 1, else 1 + floor(n*inc/2^16) |
| FrameRefs.RequestOnward | wapa_httpd/wapa_http_server.h:326-410 | a request through any run, wherever the removal of others moves it: accepted and taken frames only grow, and `m_first` is never set again |
| VideoFrames.RequestRun | wapa_httpd/wapa_http_server.cpp:462-519 | what OnVideoFrame does for one request, header frame included, as a run of steps |
| VideoFrames.QueuedIffTaken | wapa_httpd/wapa_http_server.cpp:464-519 | what is appended to the queue: the frame iff the request asks for it, the rate gate passes it, and a header frame that must go first, and there is room for both; directly in front of it the header frame; and a header frame alone iff only that passes; the old queue stays in front |
| VideoFrames.VideoFrameDelivered | wapa_httpd/wapa_http_server.cpp:456-522 | after an undisturbed OnVideoFrame exactly the requests that take the frame have it queued last, the old queue in front and the header frame a first I-frame needs directly before it; the publisher holds what it held before, and the frame is already deleted iff nobody took it |
| VideoFrames.OneHeader | wapa_httpd/wapa_http_server.cpp:470-498 | a request whose header frame was queued needs none before any later frame, whatever happens meanwhile |
| VideoFrames.HeaderOfferedIff | wapa_httpd/wapa_http_server.cpp:466-490 | a header frame is offered iff the request asks for the frame, has had none, and the type is 0 or 2 |
| DisturbedFrames.ForeignRun | wapa_httpd/wapa_http_server.h:326-341 | sender threads drain queues from the front and other cameras make frames; they change nothing else that OnVideoFrame looks at |
| DisturbedFrames.ServedAmid | wapa_httpd/wapa_http_server.cpp:462-519 | one request served while others work before and between its steps: it accepts every frame that it takes undisturbed, and none that it would not take with an empty queue; behind what was accepted before comes at most a header frame |
| DisturbedFrames.VideoFrameAmid | wapa_httpd/wapa_http_server.cpp:456-522 | the same for OnVideoFrame as a whole, with others at work between any two of its steps; all counts and orders hold, and the frame is gone at the end iff nobody refers to it |
| HTTPServer.WAPAHTTPServer.constructor | wapa_httpd/wapa_http_server.cpp:524-528 | no requests, no frames |
| HTTPServer.WAPAHTTPServer.NewFrame | wapa_httpd/wapa_http_server.cpp:460 | takes the step that makes a frame |
| HTTPServer.WAPAHTTPServer.AddRef | wapa_httpd/wapa_http_server.h:247-252 | one more reference |
| HTTPServer.WAPAHTTPServer.ReleaseAndDelete | wapa_httpd/wapa_http_server.h:254-264 | one reference less, deletion with the last |
| HTTPServer.WAPAHTTPServer.AddFrame | wapa_httpd/wapa_http_server.h:343-392 | takes the step that offers a frame: gate, then the end of the queue unless seven frames wait; the queue takes a reference iff the frame is queued |
| HTTPServer.WAPAHTTPServer.ReleaseHeld | wapa_httpd/wapa_http_server.cpp:521 | takes the step that gives back a reference a thread holds |
| HTTPServer.WAPAHTTPServer.Dequeue | wapa_httpd/wapa_http_server.h:326-336 | takes the step that moves the oldest frame to the sender thread |
| HTTPServer.WAPAHTTPServer.Finish | wapa_httpd/wapa_http_server.h:338-341 | takes the step that gives the sender's reference back |
| HTTPServer.WAPAHTTPServer.AddRequest | wapa_httpd/wapa_http_server.cpp:524-528 | takes the step that adds a request |
| HTTPServer.WAPAHTTPServer.DelRequest | wapa_httpd/wapa_http_server.h:305-309 | takes the step that removes a request, and then one for each reference it gives back |
| HTTPServer.WAPAHTTPServer.RemoveRequest | wapa_httpd/wapa_http_server.cpp:530-534 | takes the step that removes a request; its queue passes to the thread that destroys it |
| HTTPServer.WAPAHTTPServer.ReleaseQueue | wapa_httpd/wapa_http_server.h:305-309 | takes one step for each queued frame |
| HTTPServer.WAPAHTTPServer.ClearRequestFlags | wapa_httpd/wapa_http_server.h:398-410 | takes the step that clears the request's flags |
| HTTPServer.WAPAHTTPServer.OfferHeader | wapa_httpd/wapa_http_server.cpp:472-498 | a header frame is made, offered and dropped; true iff it was queued |
| HTTPServer.WAPAHTTPServer.OfferGated | wapa_httpd/wapa_http_server.cpp:500-512 | the I-frame test and the offer behind it |
| HTTPServer.WAPAHTTPServer.OfferFrame | wapa_httpd/wapa_http_server.cpp:462-519 | takes exactly the steps of one request |
| HTTPServer.WAPAHTTPServer.OnVideoFrame | wapa_httpd/wapa_http_server.cpp:456-522 | takes exactly the steps of publishing, offering to every request in order, and dropping |
| RateGate.PassStep | wapa_httpd/wapa_http_server.h:363-378 | one offer: the accumulator follows the running total and passes iff the total crosses a multiple of 2^16; the wrap changes neither |
| RateGate.AccumulatorAfter | wapa_httpd/wapa_http_server.h:363-378 | the accumulator is n increments less whole wraps, and never above the wrap constant plus one increment |
| RateGate.ThinningIsExact | wapa_httpd/wapa_http_server.h:343-379 | n >= 1 offers at interval c pass exactly 1 + floor(n*inc/2^16) times |
| RateGate.UngatedPasses | wapa_httpd/wapa_http_server.h:347-361 | without an interval on either side, or with one not below `m_interval`, every offer passes, from any state, and a gate in use starts over |
| RateGate.UngatedPassAll | wapa_httpd/wapa_http_server.h:347-361 | so all of n such offers pass |
| RateGate.FirstOfferPasses | wapa_httpd/wapa_http_server.h:361-379 | the first gated offer passes and starts the accumulator |
| Mpeg4Framer.FeedConcat | wapa_httpd/wapa_camera.cpp:266-395 | feeding in two parts is feeding the whole |
| Mpeg4Framer.FeedWithinItem | wapa_httpd/wapa_camera.cpp:275-280 | bytes within the current item are collected; the last one acts |
| Mpeg4Framer.HelloRefused | wapa_httpd/wapa_camera.cpp:278-306 | sixteen bytes that do not begin with 07 61 are dropped and the connection is to be closed |
| Mpeg4Framer.SizeIsAnnounced | wapa_httpd/wapa_camera.cpp:311-317 | the size read is the number announced, as a signed 32-bit value |
| Mpeg4Framer.HeaderAccepted | wapa_httpd/wapa_camera.cpp:308-326 | after a header the framer waits for exactly the payload announced in its bytes 4 to 7, low byte first |
| Mpeg4Framer.PacketDelivered | wapa_httpd/wapa_camera.cpp:308-378 | header and payload become one frame with its type; types 0x80 and 0x00 have the width and height in hello bytes 4 to 7, 0x82 and 0x02 those in bytes 8 to 11, low byte first, others 0 |
| Mpeg4Framer.PacketsDelivered | wapa_httpd/wapa_camera.cpp:308-378 | any prefix of any packet sequence delivers exactly its complete packets |
| Mpeg4Framer.DeliveredExactly | wapa_httpd/wapa_camera.cpp:261-395 | after any prefix of a well-formed stream, exactly its complete frames with type and dimensions, and `buffer[..position]` is the unfinished rest |
| Mpeg4Framer.NextRequestInsideIff | wapa_httpd/wapa_camera.cpp:268-326 | behind any well-formed stream and one more header, the next recv stays inside the buffer iff the header announces 0 to 512K bytes; larger sizes are noticed iff they are below 2^31 |
| Mpeg4Framer.Camera.Receive | wapa_httpd/wapa_camera.cpp:268-381 | one recv into the buffer and the action of a completed item advance the framer by exactly those bytes |
| Mpeg4Framer.Camera.Drain | wapa_httpd/wapa_camera.cpp:263-395 | in whatever pieces recv returns the input, the framer ends as if fed byte by byte |
| AvrCounter.Slide | wapa_httpd/wapa_camera.cpp:73-79 | total and weighted sum of the slid window follow from the old ones, the new value and the one it replaces |
| AvrCounter.WeightedAt | wapa_httpd/wapa_camera.cpp:73-79 | cell k of the window weighs k, and 1 in the total |
| AvrCounter.WindowAt | wapa_httpd/wapa_camera.cpp:63-77 | cell k of the window is the value n - k back, or the first value when there are not so many |
| AvrCounter.ShownIs | wapa_httpd/wapa_camera.cpp:37-84 | what is shown is the weighted sum over the divisor in 256ths, rounded down, and 0 when negative |
| AvrCounter.Rotated | wapa_httpd/wapa_camera.cpp:73-77 | overwriting the oldest cell and stepping on slides the circular window |
| AvrCounter.Advances | wapa_httpd/wapa_camera.cpp:71-81 | one more value keeps the closed form: `m_total` the sum of the window, `m_num` n times the first value plus position times value |
| AvrCounter.Starts | wapa_httpd/wapa_camera.cpp:63-69 | the first value establishes it |
| AvrCounter.NumInHull | wapa_httpd/wapa_camera.cpp:78-79 | the weights add up to the divisor: the weighted sum lies between the divisor times the least and the greatest value |
| AvrCounter.ShownBetween | wapa_httpd/wapa_camera.cpp:39-42 | `get_value` lies between the least and the greatest value added since the reset, negative ones counting as zero |
| AvrCounter.FirstValueStays | wapa_httpd/wapa_camera.cpp:63-79 | once the window holds one value only, the average is still a mixture with the first value, of weight n, and no longer moves |
| AvrCounter.MovingAverageIff | wapa_httpd/wapa_camera.cpp:71-81 | the weighted sum is the textbook one of the window iff n times the first value since the reset equals the window's total |
| AvrCounter.ShownApart | wapa_httpd/wapa_camera.cpp:37-50 | what is shown lies the difference of the two, over the divisor, away from the textbook weighted moving average, up to rounding by one 256th; with no difference it is that average |
| AvrCounter.RoundingHides | wapa_httpd/wapa_camera.cpp:37-42 | for 3 and then 2 in a window of two the sums differ, yet the same value is shown |
| AvrCounter.NotAMovingAverage | wapa_httpd/wapa_camera.cpp:71-81 | it is not for 3 and then 0 in a window of two: 2 is shown instead of 1 |
| AvrCounter.FieldsBounded | wapa_httpd/wapa_camera.cpp:60-84 | how far the fields get from zero for values of a given magnitude |
| AvrCounter.AdvanceFits | wapa_httpd/wapa_camera.cpp:60-84 | for values within the bound no intermediate result leaves 32 bits |
| AvrCounter.Counter.constructor | wapa_httpd/wapa_camera.cpp:22-30 | the divisor is 1 + ... + n |
| AvrCounter.Counter.AddValue | wapa_httpd/wapa_camera.cpp:60-84 | the history grows by the value and the closed form holds again, without 32-bit overflow |
| AvrCounter.Counter.GetValue | wapa_httpd/wapa_camera.cpp:37-50 | the shown average of the history, 0 before the first value |
| AvrCounter.Counter.Reset | wapa_httpd/wapa_camera.cpp:52-59 | an empty history |
| PacketProtocol.CsumFromLength | Arduino/comm_prot_parser.h:63-71 | summing from the length byte and summing the payload with the length as extra agree |
| PacketProtocol.CsumDetects | Arduino/comm_prot_parser.h:63-71 | changing one byte changes the sum |
| PacketProtocol.CsumIsParity | Arduino/comm_prot_parser.h:63-71 | the sum has a bit iff an odd number of the bytes, the extra one included, have it |
| PacketProtocol.ExpectedIsMissing | Arduino/comm_prot_parser.h:50-55 | the parser asks for one byte up to the length and then for exactly what is missing from the packet |
| PacketProtocol.ChunkJudged | Arduino/comm_prot_parser.h:93-137 | for every chunk of at most the expected size: NEED_MORE iff all bytes so far begin a packet, PACKET_READY iff they are one, a checksum error iff they are complete and not one, a general error iff they leave the prefix, a packet size error iff the length is 0; errors leave a reset parser |
| PacketProtocol.OversizeReportedIff | Arduino/comm_prot_parser.h:93-137 | ERROR_SIZE is answered iff the chunk is larger than expected and its first byte is the prefix byte awaited or a nonzero length |
| PacketProtocol.OversizeAccepted | Arduino/comm_prot_parser.h:93-137 | two bytes where one is expected that make PACKET_READY |
| PacketProtocol.OversizedTailIgnored | Arduino/comm_prot_parser.h:95-131 | inside the body an oversized chunk is never reported as such: answer and payload are those of its first expected bytes |
| PacketProtocol.TransmissionJudged | Arduino/comm_prot_parser.h:93-137 | the same for the last of any sequence of chunks |
| PacketProtocol.TransmissionDelivered | Arduino/comm_prot_parser.h:93-137 | a complete transmission in any admissible chunks: NEED_MORE before the last one, then PACKET_READY with the body held, or a checksum error and a reset parser |
| PacketProtocol.BehindPacket | Arduino/comm_prot_parser.h:128-135 | behind a packet any chunk is a general error and resets the parser, also one that begins the next packet |
| PacketProtocol.EncodedIsPacket | Arduino/comm_prot_parser.h:143-179 | both `create_packet` forms produce a packet that carries the payload |
| PacketProtocol.CorruptionIsNoticed | Arduino/comm_prot_parser.h:117-125 | one changed byte after the length byte leaves no packet |
| PacketProtocol.PacketRoundTrip | Arduino/comm_prot_parser.h:84-137 | an encoded payload, cut in any admissible way, comes out of `get_packet` unchanged |
| PacketProtocol.CorruptedPacketRejected | Arduino/comm_prot_parser.h:93-137 | with any one byte after the length byte changed it ends in ERROR_CSUM and a reset parser |
| PacketProtocol.RoomBefore | Arduino/comm_prot_parser.h:115-117 | a buffer that holds the announced length has room for every admissible chunk |
| PacketProtocol.StaysInsideIff | Arduino/comm_prot_parser.h:115-117 | in whatever admissible chunks, no byte of a complete transmission is copied beyond the buffer iff the announced length fits it |
| PacketProtocol.ReceivePacket | Arduino/comm_prot_parser.h:84-137 | the parser object, fed an encoded payload in any admissible chunks, answers NEED_MORE until a final PACKET_READY and hands the payload out |
| PacketProtocol.CsumOf | Arduino/comm_prot_parser.h:63-71 | XOR of a stretch of an array |
| PacketProtocol.CommProtocolParser.constructor | Arduino/comm_prot_parser.h:39-44 | a reset parser |
| PacketProtocol.CommProtocolParser.ResetParser | Arduino/comm_prot_parser.h:57-61 | a reset parser |
| PacketProtocol.CommProtocolParser.GetExpectedDataSize | Arduino/comm_prot_parser.h:50-55 | one byte up to the length, then what is missing, computed in a byte |
| PacketProtocol.CommProtocolParser.PostData | Arduino/comm_prot_parser.h:93-137 | buffer, position, state and announced length advance as the parser on values does, error cases included |
| PacketProtocol.CommProtocolParser.GetPacket | Arduino/comm_prot_parser.h:77-91 | the payload of a complete packet, if it fits the caller's buffer |
| PacketProtocol.CommProtocolParser.CreatePacket | Arduino/comm_prot_parser.h:164-179 | the encoded data, or 0 and an untouched buffer when it is too small; nothing behind the packet changes |
| PacketProtocol.CommProtocolParser.CreateCommand | Arduino/comm_prot_parser.h:143-162 | the same for a command byte followed by data |
| Base64.ValueOfSymbol | intercom/pjs_lua_libs.cpp:114-117 | decoding a symbol of the alphabet gives back its value |
| Base64.SymbolOfValue | intercom/pjs_lua_libs.cpp:114-117 | a byte that is neither foreign nor '=' is the symbol of its value |
| Base64.ForeignIff | intercom/pjs_lua_libs.cpp:111-117 | foreign are exactly the bytes that are neither '=' nor one of the 64 letters |
| Base64.BuildTable | intercom/pjs_lua_libs.cpp:111-117 | the table loops compute the decoding table |
| Base64.JoinSplit | intercom/pjs_lua_libs.cpp:79-84 | regrouping three bytes as four values and back gives the bytes |
| Base64.SplitJoin | intercom/pjs_lua_libs.cpp:143-145 | regrouping four values as three bytes and back gives the values |
| Base64.LastGroup | intercom/pjs_lua_libs.cpp:88-98 | the padded last group |
| Base64.Base64Encode | intercom/pjs_lua_libs.cpp:60-106 | the text, inside the allocated buffer and followed by NUL, for every input |
| Base64.WriteBlocks | intercom/pjs_lua_libs.cpp:133-148 | the main decoding loop fills the allocated buffer exactly |
| Base64.Base64Decode | intercom/pjs_lua_libs.cpp:108-159 | NULL iff no or an incomplete number of groups is left without foreign bytes; else all groups less the padding, inside the allocated buffer |
| Base64RoundTrip.EncodeDecodes | intercom/pjs_lua_libs.cpp:60-159 | every text is complete groups without foreign bytes and decodes to its input |
| Base64RoundTrip.DecodeInvertsEncode | intercom/pjs_lua_libs.cpp:60-159 | any nonempty input survives encoding, insertion of foreign bytes anywhere, and decoding; the empty input alone does not |
| Base64RoundTrip.WrapperRoundTrip | intercom/pjs_lua_libs.cpp:18-57 | the NUL that the script wrapper appends is such a byte |
| Base64RoundTrip.EncodeIsCanonical | intercom/pjs_lua_libs.cpp:88-100 | only the last group is padded, at its end, with the unused bits clear |
| Base64RoundTrip.EncodeInvertsDecode | intercom/pjs_lua_libs.cpp:60-159 | decoding and encoding a text gives it back iff it is canonical |
| Base64Bits.EncodeSpellsBits | intercom/pjs_lua_libs.cpp:79-100 | section 4 of RFC 4648: the symbols spell the input bit by bit, zeros complete the last symbol, '=' the last group |
| EchoBuffers.StepKeepsInvariant | intercom/echo_canceller.cpp:98-221 | every step keeps: frames in `lat_buf`, in `lat_free` and in hand are `lat_cnt`; ready implies `lat_free` empty; references used, frames waiting and the delay queue spell the frames played |
| EchoBuffers.EveryRun | intercom/echo_canceller.cpp:98-221 | so after every interleaving of playback, the two halves of capture, and reset; the references used are a prefix of the frames played since the reset, in order, with silence in between only; NeverSilentIff says when there is any |
| EchoBuffers.CaptureFindsFrame | intercom/echo_canceller.cpp:191-193 | capture never takes from an empty list |
| EchoBuffers.ReferencesAreInStep | intercom/echo_canceller.cpp:191-199 | without underrun the k-th reference is the k-th frame played |
| EchoBuffers.CaptureFetchesNext | intercom/echo_canceller.cpp:208-218 | a capture ends with the next played frame that no reference has yet, and with silence iff there is none |
| EchoBuffers.NeverSilentIff | intercom/echo_canceller.cpp:139-218 | over every run: no reference, used or waiting, is ever silence iff no capture ends with every frame played used or waiting |
| EchoBuffers.SuppliedInStep | intercom/echo_canceller.cpp:139-218 | over every such run reference k is frame k played, and the references waiting are the frames played next |
| EchoBuffers.SteadyState | intercom/echo_canceller.cpp:114-221 | after `lat_cnt` + 1 frames played, any number of rounds of a capture and a playback use frame k as reference k, `lat_cnt` frames waiting and one in the delay queue |
| EchoBuffers.SteadyReferences | intercom/echo_canceller.cpp:114-221 | so reference k of the rounds is frame k, without silence |
| EchoBuffers.Prefetch | intercom/echo_canceller.cpp:139-158 | the first `lat_cnt` frames fill `lat_buf`, the next one makes the buffers ready |
| EchoBuffers.EchoCanceller.constructor | intercom/echo_canceller.cpp:48-61 | at least one frame, all distinct and all free |
| EchoBuffers.EchoCanceller.Playback | intercom/echo_canceller.cpp:114-161 | one playback step, and -1 with nothing changed for a wrong size |
| EchoBuffers.EchoCanceller.CaptureBegin | intercom/echo_canceller.cpp:167-193 | the step up to the lock release; a frame is in hand iff the buffers are ready |
| EchoBuffers.EchoCanceller.CaptureEnd | intercom/echo_canceller.cpp:208-218 | the frame in hand returns filled from the delay queue, or silent when that is empty; CaptureFetchesNext says when that is |
| EchoBuffers.EchoCanceller.Reset | intercom/echo_canceller.cpp:98-109 | all waiting frames are free again, one in hand stays in hand |
| HighPass.StepTowards | intercom/echo_canceller.h:29-33 | a step never overshoots, and makes no progress iff the smoothed value is 0 to 100 below the sample |
| HighPass.SmoothInHull | intercom/echo_canceller.h:29-33 | over any samples `x` stays in every interval that holds its start and the scaled samples |
| HighPass.FitsInt32 | intercom/echo_canceller.h:29-33 | for 16-bit samples `x` and the difference fit 32 bits |
| HighPass.DistanceShrinks | intercom/echo_canceller.h:29-33 | on a constant input the distance keeps its sign and shrinks with every sample until it is 0 to 100 |
| HighPass.OutputSettles | intercom/echo_canceller.h:29-33 | on a constant input every output from the abs(ii - x)-th sample on is 0 |
| HighPass.ZeroStays | intercom/echo_canceller.h:29-33 | once 0 on a constant input, 0 for ever |
| HighPass.RestsBelow | intercom/echo_canceller.h:29-33 | the resting states, exactly |
| HighPass.OutputFitsIff | intercom/echo_canceller.h:32-33 | the cut to 16 bits changes the sample iff before the call the state lies more than 542265766 below or 542265768 above the scaled input |
| HighPass.LeastIsReached | intercom/echo_canceller.h:29-33 | 2^29 samples of -32768 take the filter from its initial state all the way down |
| HighPass.FullScaleStepWraps | intercom/echo_canceller.h:29-33 | so from there the greatest sample gives -653 instead of 64883 |
| HighPass.IIR_HP.Highpass | intercom/echo_canceller.h:29-33 | new state and the sample cut to 16 bits; it is 0 iff the new state is at the scaled sample or less than one unit below it |

## Left out

- SIP, HTTP, ZeroMQ, Lua and SWIG bindings, configuration, PHP pages, mjpg-streamer plugins, signal handling: plumbing over
  libraries that are not part of this model.
- 1-Wire pin timing, retries, interrupts and parasite power: the bus is the abstract device set, which does not change during
  a search.
- Reading power supply, scratch pad and resolution in `DallasTemperature::begin`: only the enumeration and the count are modelled.
- DallasTemperature.DallasTemperature.GetAddress: for index 255 on a bus of more than 256 devices, where the byte `depth` wraps
  and later devices are tried as well, nothing is claimed about the answer.
- DallasTemperature.DallasTemperature.AlarmSearch: plain `char` is taken as signed, because the code keeps -1 in it and compares
  it with bit numbers; the state before the first `resetAlarmSearch` is not modelled, because both callers reset first.
- SHA-2 words are numbers modulo 2^32 or 2^64; the byte-order macros `HOST_c2l`, `HOST_l2c`, `PULL64` are big-endian conversion
  of numbers, and the inline-assembly variants and `OPENSSL_cleanse` are left out.
- Sha2Stream.HashContext.Md32Final: the cleared context after `Final` is not claimed to be usable again.
- Agc.Agc.Process: sample -32768 is excluded, because its magnitude does not fit 16 bits; `pjs_level` and the static helpers
  that `process` does not call are left out.
- FrameAllocator.FrameMemoryAllocator.Alloc: sizes near 2^32, where the projected size wraps, and failing `malloc` are not
  modelled; blocks are named by the order in which `malloc` returned them.
- HTTPServer.WAPAHTTPServer.OnVideoFrame: frame contents and the bytes of the header frame are left out.
- FrameRefs.EveryRun: a step is one critical section, the counter's lock counting as part of it; waiting,
  signalling and the exit flag are left out, and a request is
  deleted after its sender thread has let go of its frame, as the four callers do.
- DisturbedFrames.VideoFrameAmid: a thread that destroys a request meanwhile only gives references back, and is not among the
  others there.
- RateGate.ThinningIsExact: stated for a constant interval below 2^15; for intervals that vary from offer to offer PassStep
  and UngatedPasses say what each one does.
- Mpeg4Framer.Camera.Receive: the model stops where the next recv would be asked for nothing or for bytes beyond the buffer;
  closing the connection, the JPEG branch, timeouts and select are left out.
- PacketProtocol.CommProtocolParser.PostData: a chunk must fit the rest of the buffer, because the code copies it unchecked
  (StaysInsideIff says when it does); empty chunks are excluded, because the code reads their first byte.
- Base64.Base64Encode: allocation failure and lengths near the largest `size_t` are not modelled.
- AvrCounter.Counter.AddValue: values beyond the magnitude for which 32 bits suffice are excluded by a bound fixed at
  construction.
- EchoBuffers.EchoCanceller.CaptureBegin: Speex, the preprocessor and the floating-point FIR filter are left out; there is one
  capture thread.
- EchoBuffers.EchoCanceller.Playback: the delay buffer is an unbounded FIFO, without pjmedia's drift compensation.
- The fan and LED controllers, `setargs`, A-law and u-law tables, and temperature conversion: only easy members.
