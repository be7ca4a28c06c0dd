# MPU6050 accelerometer firmware: decode, batch, serialise, login check

A Dafny model of the sequential core of the ESP32 firmware `MPU6050-Device-IoT.c`.
The firmware samples an MPU6050 accelerometer over I2C. It stores the readings in a
60-sample batch buffer and sends each full batch to a TCP proxy as JSON text. At
start-up it logs in with a fixed token and checks the proxy's reply.

The model has four parts, one module each, plus shared types and a composition:

- `CTypes` (`ctypes.dfy`): `uint8_t`, `short`, C's `<<` and `|` on non-negative `int`s, and the conversion of an `int` to a `short` (low 16 bits, two's complement).
- `Sensor` (`sensor.dfy`): the decode of the six bytes read from `ACCEL_XOUT_H` into a sample. Each axis is `(hi << 8) | lo` stored into a `short`. `EncodeAxis` and `EncodeSample` are its inverses.
- `Sampler` (`sampler.dfy`): the batch store `struct accel_buffer` together with `buffer_index`, as the class `AccelBuffer`. It has three `array<int16>` fields of length 60 and a `cursor`. `Append` does one fill step and returns the batch-ready signal; `false` is the delay branch. `Run` is the first k iterations of the sampling loop. The functions `CursorAfter`, `Signals` and `Fill` give the state after k steps, and lemmas prove the cursor, signal and contents properties about them.
- `Decimal` (`decimal.dfy`): `%d` formatting, and its partner, a reader for the integer form of a number in RFC 8259, section 6. The reader rejects leading zeros.
- `Payload` (`payload.dfy`): the payload text `{"x": [..], "y": [..], "z": [..]}` as a reference definition. It also has a reader for it (RFC 8259, sections 5 and 6, in the exact spacing the firmware emits), the round trip between the two, the separator count and the buffer-size bounds.
- `Transmitter` (`transmitter.dfy`): the serialisation loop of `send_sensor_data_to_proxy` as a method over the `AccelBuffer`. It is proved to produce the payload text. Also here: the heartbeat token `"alive"`.
- `Handshake` (`handshake.dfy`): the interpretation of the login reply. `recv` returns a length, a NUL is written there, and `strcmp` compares against `"ok"`. `strcmp` is modelled byte by byte and proved equivalent to equality of the texts before the first NUL.
- `Pipeline` (`pipeline.dfy`): the first batch after start-up. 60 reads go into a fresh buffer, the 60th alone signals, and the payload built afterwards reads back to the 60 decoded readings per axis.

The transmitter task serialises one batch and then deletes itself (lines 350-351), so only the first batch the sampler signals is ever sent. `Pipeline.FirstBatch` models that batch.

## Model

| member | source | states |
|---|---|---|
| `CTypes.BitOrDisjoint` | MPU6050-Device-IoT.c:279-281 | or-ing a value shifted left by k with a value below 2^k equals their sum, so the or of `hi << 8` and `lo` is `256*hi + lo` |
| `Sensor.DecodeAxis` | MPU6050-Device-IoT.c:279-281 | `hi << 8` or-ed with `lo` and stored into a `short` keeps the 16-bit word `256*hi + lo` modulo 2^16; its exact value and sign are `DecodeAxisValue`, and `EncodeAxis` is its inverse (`DecodeEncodeAxis`, `EncodeDecodeAxis`) |
| `Sensor.DecodeAxisValue` | MPU6050-Device-IoT.c:279-281 | the decoded axis is `256*hi + lo` read as two's-complement 16 bits; it is negative exactly when `hi >= 0x80` |
| `Sensor.DecodeAxisBounds` | MPU6050-Device-IoT.c:279-281 | bytes (0x80,0x00) give -32768, (0x7F,0xFF) give 32767, (0xFF,0xFF) give -1, (0,0) give 0 |
| `Sensor.DecodeEncodeAxis` | MPU6050-Device-IoT.c:279-281 | every `short` value is the decoding of its own big-endian byte pair, so decode reaches all of [-32768, 32767] |
| `Sensor.EncodeDecodeAxis` | MPU6050-Device-IoT.c:279-281 | distinct byte pairs decode to distinct values |
| `Sensor.DecodeSample` | MPU6050-Device-IoT.c:279-281 | x, y and z from bytes 0-1, 2-3 and 4-5 of the read; `EncodeSample` is its inverse in both directions (`DecodeSampleRoundTrip`, `EncodeSampleRoundTrip`) |
| `Sensor.DecodeSampleRoundTrip` | MPU6050-Device-IoT.c:263-281 | a sample is the decoding of the six bytes (X, Y, Z high then low) the sensor sends for it |
| `Sensor.EncodeSampleRoundTrip` | MPU6050-Device-IoT.c:263-281 | decoding a six-byte read and re-encoding it gives back the same six bytes |
| `Sampler.Advance` | MPU6050-Device-IoT.c:289-291 | the cursor after one step is the next slot modulo 60, so it stays in [0, 60) |
| `Sampler.CursorAfterIsModN` | MPU6050-Device-IoT.c:289-291 | after k steps from cursor c the cursor is (c + k) mod 60 |
| `Sampler.SignalAt` | MPU6050-Device-IoT.c:289-297 | step i of a run signals exactly when it writes slot 59, i.e. when (c + i) mod 60 = 59; every other step takes the delay branch |
| `Sampler.SignalCount` | MPU6050-Device-IoT.c:289-293 | k steps from cursor c give exactly (c + k) / 60 signals, so from a fresh buffer one per 60 samples |
| `Sampler.FirstBatchSignal` | MPU6050-Device-IoT.c:289-297 | from cursor 0, steps 1 to 59 do not signal and step 60 does |
| `Sampler.SignalsSpaced` | MPU6050-Device-IoT.c:289-293 | two signals of a run are a non-zero multiple of 60 steps apart, never closer |
| `Sampler.SignalInEveryWindow` | MPU6050-Device-IoT.c:289-293 | every 60 consecutive steps of a run contain a signalling step |
| `Sampler.FillWithoutWrap` | MPU6050-Device-IoT.c:285-289 | values written before the cursor wraps land in consecutive slots from the cursor; all other slots keep their contents |
| `Sampler.FillBatch` | MPU6050-Device-IoT.c:285-291 | 60 samples written from cursor 0 leave each array equal to those samples in read order, whatever it held before |
| `Sampler.AccelBuffer.constructor` | MPU6050-Device-IoT.c:63-70 | three fresh, distinct 60-slot arrays with unspecified contents (as from `malloc` at line 94) and cursor 0 |
| `Sampler.AccelBuffer.Append` | MPU6050-Device-IoT.c:285-297 | the sample lands at the old cursor in x, y and z and the other 59 slots of each are unchanged; the cursor advances by one, or wraps to 0 after slot 59; the signal is returned exactly on that wrapping step |
| `Sampler.AccelBuffer.Step` | MPU6050-Device-IoT.c:279-297 | one loop iteration: the decoded six-byte read is appended as in Append |
| `Sampler.AccelBuffer.Run` | MPU6050-Device-IoT.c:253-298 | after k iterations the signals are `Signals(c, k)`, the cursor is `CursorAfter(c, k)`, and each array is `Fill` of its old contents with the decoded readings |
| `Decimal.DigitsShape` | MPU6050-Device-IoT.c:323 | `%d` of a magnitude is a non-empty run of digits whose first digit is `0` only for the value 0 (no leading zeros) |
| `Decimal.FormatInt` | MPU6050-Device-IoT.c:323-334 | `%d` is non-empty and starts with `-` exactly for a negative value; its shape, length and inverse are `FormatIntShape`, `FormatIntLength` and `ReadFormatInt` |
| `Decimal.FormatIntShape` | MPU6050-Device-IoT.c:323 | `%d` is an optional leading `-` followed by digits, and ends in a digit |
| `Decimal.FormatIntLength` | MPU6050-Device-IoT.c:323-334 | a `short` prints in 1 to 6 characters |
| `Decimal.ReadFormatInt` | MPU6050-Device-IoT.c:323 | reading `%d` of v, followed by a non-digit, as an RFC 8259 integer gives v and exactly the text that followed |
| `Decimal.FormatIntInjective` | MPU6050-Device-IoT.c:323 | distinct values print differently |
| `Payload.ArrayText` | MPU6050-Device-IoT.c:319-335 | one axis as `[v0, v1, ..., vn-1]`; its shape is `ArrayShape` and `ReadArrayText` reads it back |
| `Payload.PayloadText` | MPU6050-Device-IoT.c:319-336 | the line-336 payload `{"x": X, "y": Y, "z": Z}`; the reader inverts it (`PayloadRoundTrip`), it is injective (`PayloadInjective`) and fits its buffer (`PayloadFits`) |
| `Payload.PayloadRoundTrip` | MPU6050-Device-IoT.c:319-336 | reading the payload gives back exactly the three arrays it was built from (x, y, z in that order), for all values including -32768 and 32767 |
| `Payload.PayloadInjective` | MPU6050-Device-IoT.c:319-336 | different batches give different payloads |
| `Payload.JoinCommas` | MPU6050-Device-IoT.c:322-335 | the elements of an axis are separated by exactly n - 1 commas |
| `Payload.ArrayShape` | MPU6050-Device-IoT.c:319-335 | an axis array opens with `[`, closes with `]`, holds n - 1 separators, and the character before `]` is a digit (no trailing separator) |
| `Payload.TokenFitsAux` | MPU6050-Device-IoT.c:313-334 | every `%d, ` or `%d]` token of a `short` fits, with its NUL, in the 10-byte `aux` |
| `Payload.JoinLength` | MPU6050-Device-IoT.c:322-335 | n `short` values join into at most 8n - 2 characters |
| `Payload.PayloadFits` | MPU6050-Device-IoT.c:310-336 | each 60-value axis string with its NUL is at most 481 bytes (within 9999), and the payload with its NUL at most 1462 (within 100000) |
| `Transmitter.FormatToken` | MPU6050-Device-IoT.c:323-334 | `sprintf(aux, "%d, "/"%d]", v)` yields `%d` of v followed by the suffix, within `aux` |
| `Transmitter.AppendElement` | MPU6050-Device-IoT.c:322-329 | appending slot i's token extends an axis text holding slots 0..i-1 to one holding 0..i, within 1 + 8(i+1) characters |
| `Transmitter.CloseArray` | MPU6050-Device-IoT.c:330-335 | appending the last slot's `%d]` completes the axis text to the array text of the whole axis |
| `Transmitter.Serialise` | MPU6050-Device-IoT.c:319-336 | the loop over slots 0..58, the closing slot 59 and the final `sprintf` produce exactly the payload text of the buffer's three arrays, and it fits the transmit buffer |
| `Transmitter.PayloadFromUncleared` | MPU6050-Device-IoT.c:312-336 | the payload as written, with `strcat` appending after the C text already in each fresh axis string; `UnclearedPayloadUnreadable` and `ClearedPayloadIsPayloadText` state its behaviour |
| `Transmitter.UnclearedPayloadUnreadable` | MPU6050-Device-IoT.c:312-319 | as written, a stray non-NUL byte (other than `[`) at the start of the x string's fresh `malloc` memory makes `ReadPayload` reject the payload |
| `Transmitter.ClearedPayloadIsPayloadText` | MPU6050-Device-IoT.c:319-336 | with axis strings that start empty, the as-written construction is exactly the payload text |
| `Transmitter.FormatHeartbeat` | MPU6050-Device-IoT.c:359-360 | the heartbeat token is `alive` and fits, with its NUL, in its 10-byte buffer |
| `Handshake.Strcmp` | MPU6050-Device-IoT.c:206 | the result lies in [-255, 255]; it is 0 exactly when the C strings are equal (`StrcmpZeroIff`) |
| `Handshake.StrcmpZeroIff` | MPU6050-Device-IoT.c:206 | `strcmp` returns 0 exactly when the texts up to the first NUL are equal |
| `Handshake.CheckLogin` | MPU6050-Device-IoT.c:199-210 | the outcome is a receive error exactly when `len < 0`; otherwise the reply is accepted or rejected, and in every case the function returns normally |
| `Handshake.LoginAcceptedIff` | MPU6050-Device-IoT.c:199-210 | the reply is accepted exactly when `len >= 0` and the NUL-terminated buffer's text is `ok`; the terminator write stays inside the 128-byte buffer |
| `Handshake.TextIsOk` | MPU6050-Device-IoT.c:205-206 | a terminated buffer's text is `ok` exactly when it starts with `o`, `k`, NUL |
| `Handshake.LoginAcceptedBytes` | MPU6050-Device-IoT.c:204-209 | accepted exactly when at least two bytes `ok` arrived, followed by nothing or by a NUL (so `ok`, NUL, anything is accepted too) |
| `Handshake.LoginExamples` | MPU6050-Device-IoT.c:199-210 | a reply of exactly `ok` is accepted; an empty reply and `fail` are rejected; a receive error is reported as such |
| `Pipeline.FirstBatch` | MPU6050-Device-IoT.c:279-336 | 60 reads into a fresh buffer: only the 60th signals, exactly one signal, and the payload then built is the text of the 60 decoded readings per axis in read order and reads back to them |

## Findings

| source | as written | input that shows it | evidently intended | confidence | as-written member | corrected member |
|---|---|---|---|---|---|---|
| MPU6050-Device-IoT.c:312-319 | `strcat(x, "[")` appends to memory fresh from `malloc`, which is never cleared, and likewise for y and z | the x string's memory starts with the byte `A`: the payload begins `{"x": A[`, which is not JSON, and `ReadPayload` rejects it | each axis string starts empty before the first `strcat` | not executed; high | `Transmitter.UnclearedPayloadUnreadable` | `Transmitter.Serialise` |

## Left out

- Wi-Fi bring-up, the event handler and the link-up flag (lines 108-162, 175): vendor driver calls and event-group waits.
- Socket creation, connect and every `send`, including the login token (lines 177-197, 339-341, 362-364): network I/O. `recv`'s return value and the buffer contents it leaves are the inputs of `Handshake.CheckLogin`.
- The I2C command links, driver install and the power-management write (lines 215-277): bus-driver primitives. The model starts from the six bytes read.
- FreeRTOS tasks, semaphores, delays, `vTaskResume` and `vTaskDelete` (lines 91-104, 292-296, 307, 350-351, 357-370): concurrency. The batch-ready semaphore is the returned `signal`, and the delay is the `false` branch.
- The race between the sampler and the transmitter on the single buffer is not modelled. `Transmitter.Serialise` reads the buffer as it is when called. `Pipeline.FirstBatch` assumes no sample is taken between the signal and the serialisation. The transmitter also never takes `mutex`, so its send is not serialised with the heartbeat.
- `malloc`, `free`, `exit` and the `ESP_ERROR_CHECK` abort (lines 44, 310-317, 344-348): memory management and process abort. Strings are Dafny sequences, so the bounds against 10, 9999 and 100000 bytes are proved as lemmas. No buffer is modelled.
- `Transmitter.Serialise`: starts each axis string empty, not from uninitialised `malloc` memory. The as-written behaviour is `Transmitter.PayloadFromUncleared`; see Findings.
- `Handshake.CheckLogin`: requires `len <= 127`, which is `recv`'s guarantee for a request of `sizeof(rx_buffer) - 1` bytes.
- The `printf` and `ESP_LOG` diagnostics: output only.
- The payload reader accepts only the spacing the firmware emits (`", "` between elements, no other whitespace). It is not a general JSON parser.
- The dashboard script (`step_counter_dashboard.py`) is not part of this model. It is the consumer: `json.loads` at line 158 is why the payload is read as JSON.
