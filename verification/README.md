# Beepy screen mirror: a Dafny model of the per-frame pipeline

The beepy_setup tools mirror a 16-bit colour framebuffer onto the Beepy's
400 x 240 monochrome panel, which takes one byte per pixel. Each frame they
capture the colour screen into one of two capture buffers, turn source
pixels into gray and then into one panel byte, store panel bytes where a
comparison with the previous frame says so, reassign the buffer pointers,
and pace themselves to the configured frame rate. What is compared, which
pixels are converted and how the pointers move differ between the
variants.

The tool exists in three divergent variants. Each is modelled as written:

- **snag** (`snag/snag_nochunking.c`):
  - decodes RGB565 by bit replication;
  - stores the luma into `uint16_t` and clamps it to 255;
  - dithers with one of five Bayer tables, or falls back to a fixed threshold of 140;
  - writes a panel byte only when the new bit differs from it;
  - exchanges the buffer pointers after the frame.
- **raspi2fb** (`raspi2fb/raspi2fb.c`):
  - reads only the first byte of each 16-bit pixel and decodes it as RGB332;
  - dithers with a five-band 2x2 parity ladder to 0 or 255;
  - decodes and dithers every pixel, changed or not;
  - compares the result with the previous *raw capture byte* at the same index, not with the panel;
  - exchanges the buffer pointers after the frame.
- **bullseye snag** (`snag_bullseye/snag.c`):
  - decodes RGB565 and casts the luma to `uint8_t`;
  - thresholds at `> 127`;
  - walks the frame as 240 x 50 x 8 nested loops and stores every changed pixel;
  - its "flip" is `back_buffer = front_buffer`, which aliases the two buffers instead of exchanging them.

## How the model is organised

- **`pixel_formats.dfy`** (modules `Rgb565` and `Rgb332`): field extraction and
  bit-replicating expansion.
  - The code uses `bv16` / `bv8`, so `<<`, `>>`, `&` and `|` mean what they mean in C.
  - A `bv8` shift drops exactly the bits that C's store into `uint8_t` drops.
- **`gray.dfy`** (`Gray`): the gray value.
  - The weighted sum is computed in `double` and is kept abstract as a `LumaFn`. That function stands for the integer the C conversion produces from (red, green, blue).
  - What each variant does to that integer is modelled exactly for values the target type can hold: clamping, the `uint16_t` store, and the `uint8_t` cast. Out-of-range conversions are reduced modulo the width (see "Left out").
- **`bayer.dfy`** (`Bayer`): the five threshold tables, with their literal values.
  - The `Level` subset type checks every entry against [0, 254].
- **`snag_dither.dfy`** (`SnagDither`): the method selection and the per-pixel bit.
  - It includes the 8-bit truncation of the row and column.
- **`raspi_dither.dfy`** (`RaspiDither`): the five-band ladder and its parity inputs.
- **`buffers.dfy`** (`Buffers`): the capture buffer pair.
  - It is two storage slots plus two tags, `prev` and `cur`.
  - A pointer assignment in C is a change of tag here: `Exchange` for snag and raspi2fb, `Alias` for the bullseye snag.
  - Nothing is ever copied.
- **`snag_frame.dfy`, `raspi_frame.dfy`, `bullseye.dfy`**: one frame of each variant, in three forms:
  - an imperative `CommitFrame` method over sequences, with loop invariants, proved equal to a reference definition;
  - a pure `Frame` function giving the next state and the set of panel indices stored to;
  - a multi-frame `Run` with induction lemmas (`RunPreservesMirror`, `RunKeepsTail`, `AliasedRunFreezesDevice`).
- **`pacing.dfy`** (`Pacing`): the frame-rate and loop-control logic.
  - It covers the `--fps` rule, the `--once` exit, the `run` flag read at the top of each iteration, and the sleep amount.
  - The clock is an input.

Behaviours of the source that the model exposes rather than hides:

- **snag**
  - The 16x16 table has the value 127 twice: `Bayer.Table16HasDuplicate`.
  - The 8-bit column breaks the 3x3 pattern's period: `SnagDither.ThreeByThreeBreaksAtTruncation`.
  - Under 8x8 and 16x16 the 0 entry keeps one pixel of every cell white, so the all-black pattern is unreachable: `SnagDither.ZeroEntryNeverBlack`.
  - The 0x0101 sentinel in the first frame leaves a panel byte stale: `SnagFrame.SentinelLeavesStaleBit`.
- **raspi2fb**
  - The comparison with the raw previous byte leaves the panel stale: `RaspiFrame.StaleDeviceAfterSecondFrame`.
- **bullseye snag**
  - The flip aliases the buffers, so from frame 2 on nothing is ever stored: `Bullseye.OnlyFirstFrameStores`.
- **all variants**
  - An fps above 1000000 followed by a non-positive one divides by zero: `Pacing.HugeFpsThenZeroDividesByZero`.

## Model

| member | source | states |
|---|---|---|
| Rgb565.RedCode | snag/snag_nochunking.c:165 | The red code is the pixel divided by 2^11, below 32 |
| Rgb565.GreenCode | snag/snag_nochunking.c:166 | The green code is the pixel divided by 2^5 and reduced modulo 64 |
| Rgb565.BlueCode | snag/snag_nochunking.c:167 | The blue code is the pixel modulo 32 |
| Rgb565.Pack | snag/snag_nochunking.c:165-167 | Packing three codes gives a pixel from which extraction (bits 15-11, 10-5, 4-0) returns the same codes |
| Rgb565.CodesRecompose | snag/snag_nochunking.c:165-167 | The three extracted fields cover the whole 16-bit pixel: packing them back gives the pixel |
| Rgb565.Expand5 | snag/snag_nochunking.c:170-172 | 5-bit expansion fits 8 bits, maps 0 to 0 and 31 to 255, and `>> 3` recovers the code |
| Rgb565.Expand6 | snag/snag_nochunking.c:171 | 6-bit expansion fits 8 bits, maps 0 to 0 and 63 to 255, and `>> 2` recovers the code |
| Rgb565.Expand5StrictlyIncreasing | snag/snag_nochunking.c:170-172 | Red and blue expansion is strictly increasing in the code |
| Rgb565.Expand6StrictlyIncreasing | snag/snag_nochunking.c:171 | Green expansion is strictly increasing in the code |
| Rgb565.Decode | snag/snag_nochunking.c:163-174 | Every decoded channel is below 256, and shifting it right recovers its extracted code |
| Rgb565.DecodeInjective | snag_bullseye/snag.c:71-80 | Distinct pixels decode to distinct channel triples, so no colour information is lost before the luma |
| Rgb332.RedCode | raspi2fb/raspi2fb.c:412 | The red code is the first byte divided by 2^5, below 8 |
| Rgb332.GreenCode | raspi2fb/raspi2fb.c:413 | The green code is the first byte divided by 4 and reduced modulo 8 |
| Rgb332.BlueCode | raspi2fb/raspi2fb.c:414 | The blue code is the first byte modulo 4 |
| Rgb332.Pack | raspi2fb/raspi2fb.c:412-414 | Packing red, green and blue codes into a byte and extracting bits 7-5, 4-2, 1-0 returns them |
| Rgb332.CodesRecompose | raspi2fb/raspi2fb.c:412-414 | The three fields of the first byte cover the whole byte |
| Rgb332.Expand3 | raspi2fb/raspi2fb.c:417-418 | 3-bit expansion maps 0 to 0 and 7 to 255, and `>> 5` recovers the code |
| Rgb332.Expand3StrictlyIncreasing | raspi2fb/raspi2fb.c:417-418 | 3-bit expansion is strictly increasing in the code |
| Rgb332.ScaleBlue | raspi2fb/raspi2fb.c:414 | `code * 85` is one of 0, 85, 170, 255, and dividing by 85 recovers the code |
| Rgb332.ReplicateBlue | raspi2fb/raspi2fb.c:419 | The second blue replication, truncated to 8 bits, is the identity on 0, 85, 170 and 255 |
| Rgb332.Decode | raspi2fb/raspi2fb.c:412-419 | Red and green `>> 5` give their codes, and blue is one of the four levels with `blue / 85` equal to its code |
| Rgb332.DecodeInjective | raspi2fb/raspi2fb.c:412-419 | Distinct first bytes decode to distinct channel triples |
| Gray.ClampHigh | snag/snag_nochunking.c:467 | The clamp yields the smaller of the value and 255 |
| Gray.ToU16 | snag/snag_nochunking.c:462 | The `uint16_t` store lies in 0..65535 and is congruent to the value modulo 65536 |
| Gray.ToU8 | snag_bullseye/snag.c:83-86 | The `(uint8_t)` cast lies in 0..255 and is congruent to the value modulo 256 |
| Gray.StoreKeepsInRange | snag_bullseye/snag.c:83-86 | A value already in range is stored unchanged by either width |
| Bayer.TablesAreSquare | snag/snag_nochunking.c:73-127 | The five tables are 2x2, 3x3, 4x4, 8x8 and 16x16 |
| Bayer.SmallTablesDistinct | snag/snag_nochunking.c:73-95 | The 2x2, 3x3 and 4x4 tables have pairwise distinct entries, giving N*N+1 levels |
| Bayer.Residue8 | snag/snag_nochunking.c:97-107 | Each 8x8 entry modulo 16 identifies the 4x4 quadrant it lies in |
| Bayer.DistinctFromQuadrants | snag/snag_nochunking.c:97-107 | Any 8x8 table whose residues identify quadrants and whose quadrants are internally distinct has 64 distinct entries |
| Bayer.Table8Distinct | snag/snag_nochunking.c:97-107 | The 8x8 table's 64 entries are pairwise distinct; because one of them is 0, gray 0..255 reaches 64 patterns, not the 65 levels its comment names |
| Bayer.Table16HasDuplicate | snag/snag_nochunking.c:112 | The 16x16 table is not injective: row 1 holds 127 in its first and last column |
| Bayer.ZeroEntries | snag/snag_nochunking.c:73-127 | Only the top-left entries of the 8x8 and 16x16 tables are 0; the smaller tables have no 0 |
| SnagDither.MethodOf | snag/snag_nochunking.c:493-510 | Each of the five names selects its table, and every other name selects the fixed threshold |
| SnagDither.Column | snag/snag_nochunking.c:490 | The column is below 256 and congruent to `pixel % 400` modulo 256 |
| SnagDither.Row | snag/snag_nochunking.c:491 | The row is below 256 and congruent to `pixel / 400` modulo 256 |
| SnagDither.ThresholdAt | snag/snag_nochunking.c:493-510 | Every threshold lies in 0..254, and the fallback is 140 |
| SnagDither.NewBit | snag/snag_nochunking.c:493-510 | The bit is 0 or 1, and it is 1 exactly when gray is at least the threshold, so ties give 1 |
| SnagDither.NewBitMonotone | snag/snag_nochunking.c:494-509 | At a fixed method and position, raising gray never turns 1 into 0 |
| SnagDither.WhiteIsAllOnes | snag/snag_nochunking.c:494-509 | Gray 255 gives 1 at every position for every method |
| SnagDither.BlackOnlyAtZeroEntries | snag/snag_nochunking.c:494-509 | Gray 0 gives 1 exactly at the 0 entries, which exist only for 8x8 and 16x16 |
| SnagDither.ZeroEntryNeverBlack | snag/snag_nochunking.c:503-506 | Under 8x8 and 16x16, pixel 0 is 1 at every gray, so no gray gives an all-black pattern |
| SnagDither.TruncationKeepsResidue | snag/snag_nochunking.c:490-491 | For N in {2,4,8,16} the 8-bit row and column keep their residues modulo N |
| SnagDither.ResidueOfTruncation | snag/snag_nochunking.c:490-491 | `(x % 256) % N == x % N` for the column and row ranges and N dividing 256 |
| SnagDither.NewBitPeriodic | snag/snag_nochunking.c:490-506 | For N in {2,4,8,16} the bit depends only on the true row and column modulo N |
| SnagDither.ThreeByThreeBreaksAtTruncation | snag/snag_nochunking.c:490-497 | For 3x3, pixels 3 and 258 agree modulo 3 in row and column, yet give different bits at gray 100 |
| SnagFrame.GrayOf | snag/snag_nochunking.c:459-467 | Gray lies in 0..255; an in-range luma passes through, and a luma of 256..65535 saturates to 255 |
| SnagFrame.Target | snag/snag_nochunking.c:459-510 | The bit is 0 or 1, and 1 exactly when the stored gray reaches the threshold at the truncated row and column |
| SnagFrame.CommitFrame | snag/snag_nochunking.c:453-520 | The loop leaves the device equal to the reference: changed pixels below 96000 hold their bit. It stores exactly where the pixel changed and the bit differs from the device byte |
| SnagFrame.Frame | snag/snag_nochunking.c:443-524 | After exchange the capture is the previous frame. Changed pixels hold their bit; stored indices are changed pixels below 96000; every other byte is unchanged |
| SnagFrame.MirrorsAfterFrame | snag/snag_nochunking.c:453-524 | After a frame the device mirrors the capture if and only if it already held the target at every unchanged pixel |
| SnagFrame.FramePreservesMirror | snag/snag_nochunking.c:453-524 | A device mirroring the previous capture mirrors the new one after the frame |
| SnagFrame.RepeatedCaptureWritesNothing | snag/snag_nochunking.c:453-455 | Capturing the same screen again stores nothing and leaves the device unchanged |
| SnagFrame.Init | snag/snag_nochunking.c:384-414 | Before frame 1 the zeroed device prefix is 0, the rest is kept, and old entries covered by the memset are 0x0101 |
| SnagFrame.FirstFrame | snag/snag_nochunking.c:414-520 | In frame 1, sentinel-covered pixels equal to 0x0101 are never stored and keep their initial byte; all others get their bit |
| SnagFrame.SentinelGray | snag/snag_nochunking.c:459-467 | The sentinel 0x0101 decodes to (0, 32, 8), whose luma with the source's weights is stored as gray 19 |
| SnagFrame.SentinelLeavesStaleBit | snag/snag_nochunking.c:414-500 | With the source's weights and the default "4x4" method, a first capture of 0x0101 at pixel 0 wants a 1 (gray 19 against threshold 15) but leaves the zeroed byte, so the device does not mirror the screen |
| SnagFrame.Run | snag/snag_nochunking.c:435-524 | Any run keeps the state well formed, and its previous buffer is the last capture |
| SnagFrame.RunPreservesMirror | snag/snag_nochunking.c:435-524 | Once mirrored, after any run the device shows the dithered last capture |
| RaspiDither.Row | raspi2fb/raspi2fb.c:428 | The row is below 256 and congruent to `pixel / 400 + 1` modulo 256 |
| RaspiDither.ParityOfPosition | raspi2fb/raspi2fb.c:427-430 | The truncated column has the true column's parity; the row parity is 1 exactly on even true rows because of the `+ 1` |
| RaspiDither.Band | raspi2fb/raspi2fb.c:441-465 | Band 0 is exactly gray up to 60 and band 4 exactly gray above 194 |
| RaspiDither.Ladder | raspi2fb/raspi2fb.c:424-465 | The output is 0 or 255; gray up to 60 gives 0 and gray above 194 gives 255 everywhere |
| RaspiDither.BlackCountByBand | raspi2fb/raspi2fb.c:441-465 | A 2x2 parity cell holds 4, 3, 2, 1, 0 black cells across the five bands |
| RaspiDither.LadderMonotone | raspi2fb/raspi2fb.c:441-465 | Raising gray never turns a white cell black |
| RaspiDither.OneBit | raspi2fb/raspi2fb.c:424-465 | The byte is 0 or 255, and is the ladder at the true column's parity and at the flipped parity of the true row |
| RaspiFrame.GrayOf | raspi2fb/raspi2fb.c:421-422 | Gray is the luma when at most 255 and 255 otherwise |
| RaspiFrame.Target | raspi2fb/raspi2fb.c:410-465 | The byte for device index i comes from capture byte 2i: 0 for gray up to 60, 255 above 194, the parity ladder in between |
| RaspiFrame.CommitFrame | raspi2fb/raspi2fb.c:410-481 | With `new_pixel` at 2*pixel and the others at pixel, the loop matches the reference and stores exactly where the bit differs from the previous raw byte |
| RaspiFrame.Frame | raspi2fb/raspi2fb.c:399-485 | Index i below `pixels` is stored iff the bit differs from old byte i, and then holds it. Other bytes are unchanged, and the buffers are exchanged |
| RaspiFrame.OnlyFirstBytesRead | raspi2fb/raspi2fb.c:412-414 | Two captures agreeing on every even byte give the same device and the same stores |
| RaspiFrame.Init | raspi2fb/raspi2fb.c:328-359 | Before frame 1 the whole device and the memset prefix of the old buffer are 0 |
| RaspiFrame.FirstFrameMirrors | raspi2fb/raspi2fb.c:328-476 | After frame 1 every index covered by the zeroed old buffer holds its dithered byte |
| RaspiFrame.Run | raspi2fb/raspi2fb.c:391-485 | Any run keeps the state well formed; the last capture is the previous frame and the buffer of the one before it receives the next capture |
| RaspiFrame.RunKeepsTail | raspi2fb/raspi2fb.c:410-481 | However long the run, device bytes at or beyond `pixels` are never changed |
| RaspiFrame.StaleDeviceAfterSecondFrame | raspi2fb/raspi2fb.c:473-485 | A concrete two-frame run leaves device byte 1 at 0 although its dithered value is 255 |
| Bullseye.ConvertPixel16 | snag_bullseye/snag.c:71-89 | Gray lies in 0..255, equals an in-range luma, and is congruent to the luma modulo 256 |
| Bullseye.Threshold | snag_bullseye/snag.c:340-346 | Only 0 or 1 is stored, and 1 exactly when gray is above 127 |
| Bullseye.Target | snag_bullseye/snag.c:337-346 | The stored byte is 0 or 1, and 1 exactly when the `uint8_t` gray is above 127 |
| Bullseye.TraversalCovers | snag_bullseye/snag.c:329-354 | Every index below 96000 is reached at counters (p/400, (p%400)/8, p%8) inside the loop bounds |
| Bullseye.TraversalOrdered | snag_bullseye/snag.c:329-354 | Distinct counter triples reach distinct indices below 96000, in increasing loop order |
| Bullseye.CommitFrame | snag_bullseye/snag.c:326-354 | The three nested loops leave the device equal to the reference and store exactly the changed pixels |
| Bullseye.Frame | snag_bullseye/snag.c:321-357 | After the flip both pointers show the capture. With distinct pointers, exactly the changed pixels are stored; aliased, none are. Every other byte is unchanged |
| Bullseye.StoresIgnoreDevice | snag_bullseye/snag.c:334-347 | Which indices are stored and what they receive do not depend on the device contents |
| Bullseye.Init | snag_bullseye/snag.c:271-284 | Before frame 1 the back buffer is zero, the pointers differ, and the device is left as it was |
| Bullseye.FirstFrame | snag_bullseye/snag.c:284-347 | In frame 1 exactly the non-zero source pixels are stored; zero pixels keep the device's old byte |
| Bullseye.Run | snag_bullseye/snag.c:314-357 | After any non-empty run the buffers are aliased and hold the last capture |
| Bullseye.AliasedRunFreezesDevice | snag_bullseye/snag.c:321-357 | Once the buffers are aliased no later frame changes the device |
| Bullseye.OnlyFirstFrameStores | snag_bullseye/snag.c:314-357 | After any run the device is exactly what frame 1 left, whatever later captures show |
| Buffers.Pair.Fill | snag/snag_nochunking.c:441-445 | The capture lands in the current buffer; the previous frame survives exactly when the pointers differ, otherwise it is overwritten too |
| Buffers.Pair.Exchange | snag/snag_nochunking.c:522-524 | The previous and current views trade places, no content moves, and aliasing is unchanged |
| Buffers.Pair.Alias | snag_bullseye/snag.c:357 | Both pointers name the current buffer, so previous and current show the same content |
| Buffers.FillThenExchange | snag/snag_nochunking.c:522-524 | After capture and exchange, the capture is the previous frame, the old previous buffer is the next target, and they stay distinct |
| Buffers.ExchangeInvolution | raspi2fb/raspi2fb.c:483-485 | Two exchanges restore the original pointer assignment |
| Buffers.AliasAbsorbing | snag_bullseye/snag.c:357 | Once aliased, a capture updates both views and another flip changes nothing |
| Pacing.CDiv | raspi2fb/raspi2fb.c:154 | For a non-negative dividend and positive divisor the quotient is the largest q with q*b <= a |
| Pacing.DefaultRate | snag_bullseye/snag.c:125-126 | The initial duration is the whole microseconds per frame at the default fps |
| Pacing.ApplyFps | raspi2fb/raspi2fb.c:150-159 | A positive fps sets the duration to whole microseconds per frame; otherwise the duration is kept and fps recomputed, failing exactly when the duration is 0 |
| Pacing.DefaultNeverDividesByZero | snag/snag_nochunking.c:182-183 | The default duration is positive, so a single fps option never divides by zero |
| Pacing.HugeFpsThenZeroDividesByZero | snag/snag_nochunking.c:219-229 | An fps above 1000000 makes the duration 0, and a following non-positive fps divides by zero |
| Pacing.SleepFor | snag_bullseye/snag.c:366-373 | It sleeps only when seconds are 0 and usec is below the duration, and then by an amount in (0, duration] that completes the frame |
| Pacing.LeadingRuns | raspi2fb/raspi2fb.c:391 | The count is the length of the leading run of set `run` flags |
| Pacing.Loop | snag/snag_nochunking.c:435-546 | With once, at most one frame and then exit; otherwise one paced frame per leading set `run` flag |
| Pacing.OnceIgnoresTiming | snag_bullseye/snag.c:361-364 | With once, the steps do not depend on measured durations or frame duration |
| Pacing.SleepsBounded | raspi2fb/raspi2fb.c:489-507 | Without once, every sleep lies in (0, duration] after a sub-second frame, and a frame needing none is not followed by one |

## Left out

- Command-line parsing, usage text, daemonising, PID files and syslog. `main`'s option loop is plumbing. `-f` is modelled as `Pacing.ApplyFps` and `-b` as `SnagDither.MethodOf`. The short options of raspi2fb and of the bullseye snag (`"df:hn:p:D:"` in both) lack `o`; in those two variants only the long `--once` sets `once`. This difference is not modelled.
- Signal handlers. The asynchronous `run = false` is modelled as the `run` flag observed at the top of each iteration.
- Capture and device setup: the dispmanx snapshot and read, the `memcpy` from `/dev/fb0`, `ioctl` geometry checks, `open`, `mmap` and `munmap`. A capture is an input sequence, and the panel is a sequence of bytes at least one frame long.
- Sizes of the mappings and buffers. The model assumes every buffer and the panel hold a whole frame. This leaves out several source facts:
  - snag maps only `smem_len / 8` panel bytes yet stores up to index 95999;
  - the buffers come from `malloc(smem_len)`;
  - the bullseye snag maps `/dev/fb1` with `/dev/fb0`'s length.
- The `double` weighted sums of the luma are floating point. They are abstracted as a `LumaFn`, and the model proves properties for every such function. C leaves the conversion of an out-of-range `double` to an unsigned type undefined. The model reduces it modulo 65536 for snag's `uint16_t` store (`Gray.ToU16`) and modulo 256 for the bullseye snag's `uint8_t` cast (`Gray.ToU8`).
- `gettimeofday`, `timersub` and `usleep`. The elapsed time is an input, and the sleep is an output value.
- Teardown:
  - the final `memset(fb1_data, 0, 96000)` in snag;
  - the final `memset(fb1_data, 0, finfo.smem_len)` in raspi2fb;
  - `memset(..., sizeof(pointer))` and the double `free` after aliasing in the bullseye snag.

  These are resource handling, not frame logic.
- Debug printing, the unused `fb1_8pixels` pointer of the bullseye snag, and its unused `pixels` value. The loop bound is the constant 96000.
- raspi2fb/drawline.c is not part of this model. It is a hardware test that draws one line.
- SnagFrame.CommitFrame compares `char oldbit` with the `uint8_t` bit as the byte value. For the bits 0 and 1 this is the same comparison whether `char` is signed or not.
- Pacing.Loop observes a finite prefix of iterations. An iteration whose `run` flag is set and that lies past the last observation is not described.
- Integer widths of `fps` and `frameDuration` (`int`, `suseconds_t`) are not modelled. `atoi` overflow is left out.
