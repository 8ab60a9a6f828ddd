# SDS011 frame decoding and PM2.5 air quality index

A model of the core of a small monitor for the Nova SDS011 particulate-matter
sensor. Once a second the sensor sends a ten-byte frame over a serial link:
header `0xAA`, a commander byte, PM2.5 and PM10 in tenths of a µg/m³ and a
sensor id (each a little-endian 16-bit field), a checksum (the sum of the six
data bytes modulo 256) and trailer `0xAB`. The monitor decodes every field,
marks the frame bad when the header, checksum or trailer does not match, and
for a good frame converts PM2.5 into an air quality index by linear
interpolation over the PM2.5 breakpoint table of the US EPA AQI.

Files:

- `bytes.dfy` (module `Bytes`): bytes, 16-bit values, and little-endian decoding
  as `int.from_bytes(…, 'little')` performs it, with its inverse.
- `frame.dfy` (module `Frame`): the checksum loop (`CheckChecksum`), the
  validity decision (`IsGoodFrame`, `ParseFrame`), field decoding (`Decode`)
  and the frame a sensor sends for given fields (`Encode`).
- `air_quality.dfy` (module `AirQuality`): the breakpoint table, the class
  `Aqi` whose constructor is the table scan with `break`, and the pure
  definition it is proved against (`FirstAbove`, `AqiOf`, `RowOf`).
- `monitor.dfy` (module `Monitor`): one pass of the read loop: collecting ten
  bytes, then parsing and, for a good frame only, converting.

Where the code differs from the usual reading of the EPA table or the datasheet,
the model follows the code:

- PM2.5 = 0.0 gives category `Good` with index 0, not `OFF_CHARTS`: `0.0 < 0.0`
  is false, so the scan stops at the `Good` row (`KnownValues`).
- A negative PM2.5 does not keep the defaults: row 0 is selected and
  `AQI_TABLE[i - 1]` is Python's index -1, the `Hazardous` row, so the index is
  p · 500 / 500.4 with category `OFF_CHARTS` (`AqiBelowZero`). Decoded
  readings are never negative.
- There is no error type: the code computes one `bad_packet` flag from all
  three checks and drops the frame; no check takes priority.
- With `F2` in place of the checksum byte `18`, the frame
  `AA C0 3C 00 96 00 34 12 18 AB` is rejected: its data bytes sum to 0x118
  (`ExampleFrame`).
- The category name is spelled `Unhealthy for Sensative Groups`, as in the table.

## Model

| member | source | states |
|---|---|---|
| `Bytes.FromBytesLE` | sds011.py:102-103 | the little-endian value of n bytes is below 256^n |
| `Bytes.FromToBytesLE` | sds011.py:102-103 | encoding a value that fits in n bytes and decoding it gives the value back |
| `Bytes.ToFromBytesLE` | sds011.py:102-103 | decoding n bytes and re-encoding at width n gives the same bytes |
| `Frame.UnpackShort` | sds011.py:102-103 | two bytes decode to low + 256 · high, a value in 0..65535 |
| `Frame.PackShort` | sds011.py:24-29 | the two bytes written for a 16-bit value unpack to that value |
| `Frame.PackShortUnique` | sds011.py:102-103 | two bytes are the packing of their own unpacked value |
| `Frame.Pm25` | sds011.py:123 | PM2.5 is the raw field divided by ten, within [0, 6553.5] |
| `Frame.Pm10` | sds011.py:124 | PM10 is the raw field divided by ten, within [0, 6553.5] |
| `Frame.CheckChecksum` | sds011.py:111-117 | the running sum wrapped to 8 bits after every step equals the plain sum modulo 256, and the check passes iff that equals the checksum byte |
| `Frame.Checksum` | sds011.py:34 | the checksum is the one byte congruent to the sum of the data bytes modulo 256 |
| `Frame.IsGoodFrame` | sds011.py:121-129 | a frame is good iff its header is 0xAA, its trailer 0xAB, and the sum of bytes 2..7 agrees with byte 8 modulo 256 |
| `Frame.Decode` | sds011.py:122-125 | the commander byte is byte 1, and each 16-bit field is the one value whose little-endian bytes are those at its offset |
| `Frame.Encode` | sds011.py:19-37 | the frame laid out for any fields is ten bytes long, carries the commander byte at offset 1 and is accepted by the reader |
| `Frame.SumUpdate` | sds011.py:34 | replacing one data byte changes the sum by the difference of the two bytes |
| `Frame.ParseFrame` | sds011.py:119-129 | the packet is bad iff the header is not 0xAA, the checksum of bytes 2..7 differs from byte 8, or the trailer is not 0xAB; the commander byte and the three little-endian fields are decoded regardless |
| `Frame.DecodeEncode` | sds011.py:19-37 | any commander byte, PM2.5, PM10 and id, framed as the datasheet lays out, is accepted and decodes to exactly those fields |
| `Frame.EncodeDecode` | sds011.py:19-37 | an accepted frame is exactly the framing of its decoded fields |
| `Frame.SingleByteCorruption` | sds011.py:121-129 | changing any one byte of an accepted frame gets it rejected, except the commander byte, which no check covers |
| `Frame.ExampleFrame` | sds011.py:19-37 | AA C0 3C 00 96 00 34 12 18 AB is accepted with PM2.5 6.0, PM10 15.0 and id 0x1234; with F2 as checksum it is rejected |
| `AirQuality.PrevIndex` | sds011.py:72 | the previous row of row i is row i-1, and of row 0 the last row (Python's index -1) |
| `AirQuality.FirstAboveFrom` | sds011.py:69-71 | scanning on from row k finds the first row whose ceiling strictly exceeds p, or the table's end |
| `AirQuality.FirstAbove` | sds011.py:69-71 | every row before the selected one has ceiling at most p and the selected row's ceiling exceeds p |
| `AirQuality.Interpolate` | sds011.py:74 | the interpolation line passes through both breakpoints: the lower threshold at the lower ceiling, the upper threshold at the upper ceiling |
| `AirQuality.AqiOf` | sds011.py:64-76 | the reported index lies in [0, 500) for 0 ≤ p < 500.4 and is 0 from 500.4 up |
| `AirQuality.RowOf` | sds011.py:64-76 | the reported category row is a table row, and is the OFF_CHARTS row exactly when p < 0 or p ≥ 500.4 |
| `AirQuality.FirstAboveIsUnique` | sds011.py:69-71 | a row meeting that characterisation is the selected one |
| `AirQuality.Aqi.constructor` | sds011.py:64-76 | stores PM2.5 and PM10 unchanged; the index and category row are those of `AqiOf` and `RowOf` |
| `AirQuality.TableAscending` | sds011.py:55-63 | both the ceilings and the thresholds of the table strictly ascend |
| `AirQuality.InterpolateBounds` | sds011.py:74 | on a rising segment the interpolated index lies in [lower threshold, upper threshold) and equals the lower threshold exactly at the lower ceiling |
| `AirQuality.InterpolateMonotone` | sds011.py:74 | on a rising segment the interpolated index rises with p |
| `AirQuality.AqiWithinBracket` | sds011.py:69-76 | for 0 ≤ p < 500.4 the category row is the first with ceiling above p, the index lies in [previous threshold, row threshold), and equals the previous threshold iff p equals the previous ceiling |
| `AirQuality.AqiMonotone` | sds011.py:55-76 | on [0, 500.4) the index is non-decreasing in PM2.5 |
| `AirQuality.AqiAboveTable` | sds011.py:67-69 | from 500.4 up the loop never breaks: index 0, category `OFF_CHARTS` |
| `AirQuality.AqiBelowZero` | sds011.py:71-75 | below 0 the index is p · 500 / 500.4 with category `OFF_CHARTS` |
| `AirQuality.KnownValues` | sds011.py:55-76 | 0.0 → 0 Good, 6.0 → 25 Good, 12.0 → 50 Moderate, 35.4 → 100, 55.4 → 150, 250.4 → 300, each in the next bracket up |
| `AirQuality.AqiDropsAtTopCeiling` | sds011.py:67-76 | the index falls from above 499 at 500.3 to 0 at 500.4 |
| `Monitor.ReadFrame` | sds011.py:96-99 | ten bytes are read in order into the frame |
| `Monitor.HandleFrame` | sds011.py:119-132 | a result is produced iff the frame is good, and then holds the decoded PM2.5 and PM10 with their index and category |
| `Monitor.DecodedAqiRange` | sds011.py:123-132 | for every frame's decoded PM2.5 the index is never negative, and is 0 exactly when PM2.5 is 0 or at least 500.4 |

## Left out

- Opening and configuring the serial port: device I/O. `ReadFrame` takes the port as a function from byte position to byte, and a read that times out with no byte is not modelled (the port is opened without a timeout).
- The endless read loop and the one-second sleep: timing and process lifecycle. `HandleFrame` is one pass.
- The UTC timestamp and the hexadecimal text of the commander byte: clock and formatting. The commander byte is kept as a byte.
- `__str__`, `__repr__` and `print`: output rendering. The category printed is the `aqiName` of the stored row `aqiData`.
- Floating-point rounding in the division by ten and in the interpolation: all concentrations and indices are exact reals; NaN and infinities do not arise.
- The table columns for colour, health effects and actions: no computation reads them.
