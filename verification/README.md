# A model of the fake I2C bus, its driver side and the plugin session

RepeaterTastic lets a stock `meshtasticd` believe it owns I2C sensors. `shim/i2cshim.c` fakes the bus: it keeps a
table of descriptors with a target address and a register pointer each, a shadow of every register the host wrote,
a forgiving parser of a values file, and eleven chip models that turn readings into registers and frames.
`shim/replay.c` holds the driver side: Portduino's transmit and receive buffers, the 112-address scan and the decoders.
`internal/sensors/api.go` writes that file on the host, and reads others meant to look the same.
`sdk/sdk.go` holds the plugin session: a reader loop, a bounded channel, settings behind a lock, a cancelled context.

This project models those four and proves what they promise each other:

- a reading the host writes into the file comes out of each chip's driver within a stated bound, and where the code
  wraps, exactly where;
- the combined and the separate read path leave the same state, and bring the same bytes if and only if at most 64 are
  asked for;
- over any run of calls on any descriptors, the register pointer and the shadow registers are what their history says;
- the scan finds exactly the enabled chips, if and only if no stale byte was left in the receive queue;
- opening and closing from many threads shares no slot and leaks no descriptor, which needs the order the code has;
- the host's and the shim's reader of a values file say the same of a line, if and only if a stated condition on the
  marks and the case of its name holds, and both read back what the host writes;
- the chips the host plans are the ones that answer, and what it warns of is all that is published unasked, if and only
  if a stated condition on the plan holds;
- the session delivers what it received, in order, unless it was cancelled from outside, closes its channel once, and
  never shows stale settings.

## How it is built

| File | Contents |
|---|---|
| `bits.dfy` | bytes, words, truncation, rounding |
| `number.dfy`, `written.dfy` | `strtod`, and what it makes of every decimal form of a number and of what follows one |
| `values.dfy`, `parser.dfy`, `render.dfy` | the meaning of a values file; the in-place parser; the host's writer |
| `trims.dfy`, `hostreader.dfy`, `agree.dfy`, `hostlines.dfy` | trimming; the host's own reader; when it and the shim's parser agree; its marks, one by one |
| `tokens.dfy`, `startup.dfy`, `plan.dfy` | the comma-separated lists of the environment; the host's plan of chips |
| `chips.dfy`, `decode.dfy`, `prefix.dfy`, `models.dfy` | the bytes of each chip; decoding bounds; read lengths; the models as they fill buffers |
| `bus.dfy`, `shim.dfy` | the calls as functions on values; the shim as a class proved against them |
| `history.dfy`, `registers.dfy`, `smbus.dfy`, `paths.dfy` | properties of every run of calls |
| `portduino.dfy`, `drivers.dfy`, `sensors.dfy`, `scan.dfy` | the driver side as a class, the register reads, each chip's driver, the scan |
| `samples.dfy` | bytes on the wire for the documented readings and for none |
| `openclose.dfy` | opening and closing from several threads |
| `session.dfy` | the plugin session |

The classes `Shim`, `Portduino` and `Client`, the parsers and the chip models are imperative, as their sources are; their
contracts tie each call to a function or a step in `bus.dfy`, `values.dfy`, `chips.dfy` or `session.dfy`, and the lemmas
are about those functions and runs of them.

## Reading the model

- `double` is `real`, so IEEE rounding is not modelled; `lround` rounds half away from zero to an unbounded integer,
  and every later conversion to a fixed width is written out as a reduction modulo 2^8, 2^16 or 2^32.
- The values file is taken, for each key, as the text at the moment that key is looked up, so it may be rewritten
  between two lookups of one bus operation. `FileRewritten` replaces it altogether between operations.
- A run numbers descriptors from 0, and an `Open` carries the descriptor the kernel chose. A legal run never opens one a
  slot still holds; `InterleavingIsLegalRun` derives this, for any number of threads opening, closing and calling, from
  the kernel giving out only descriptors that are not open.
- `dig_T1` is 16384, as the code has it; the comment at `shim/i2cshim.c:815` and `shim/README.md` still say 0.
- `shim/README.md:152-153` calls the host's reader and the shim's deliberately the same grammar; they are not, and
  `ReadersAgreeIff` says on which lines they agree.
- `internal/sensors/api.go:193-196` has `Invents` list whatever a node publishes that nobody asked for; it leaves out the
  other fields of a chip asked for one of several, and `InventsCompleteIff` says exactly when its list is complete.
- Where two `rd()` calls stand in one expression, the left one is taken first.
- The buffers of a transfer's messages are values; a read message's buffer keeps its bytes past the 64th, as in the
  code. `PathsPartAtSixtyFive` is the input on which a combined request hands out a byte the bus never brought, and
  `ReadPathsAgree` is exactly when it does not.
- The host's `fmt.Sscanf` with `%g` is not part of the repository: its reader takes the number reader as a parameter,
  and it is compared with the shim's with both reading numbers as `strtod` does.

## Model

| member | source | states |
|---|---|---|
| ValuesParser.ValueLookup | shim/i2cshim.c:344-402 | The in-place loop over the 8192-byte buffer, NULs written over newlines, stays inside it, ends, and returns exactly what the line-by-line meaning of the text gives |
| ValuesParser.MatchLine | shim/i2cshim.c:372-398 | One line cut in place, key trimmed and compared, value converted: the same as splitting, trimming and comparing the line as a string |
| ValuesParser.TrimKey | shim/i2cshim.c:384-387 | The two trimming loops take blanks, tabs, braces and quotes off the key's left end and blanks, tabs and quotes off its right end, all of them and nothing else |
| ValuesFile.LastLineWins | shim/i2cshim.c:366-400 | A text gives a key the value of the last line that matches it and converts; a later malformed line keeps the earlier value |
| ValuesFile.JunkLineIgnored | shim/README.md:132-137 | A whole line that says nothing about a key may be inserted or removed anywhere without changing any lookup of it, up to the buffer's size |
| ValuesFile.CommentsSayNothing | shim/i2cshim.c:384-391 | A line whose first character past blanks, braces and quotes is the comment mark matches no key |
| ValuesFile.AppendedLineWins | shim/i2cshim.c:396 | A well-formed line appended at the end decides |
| ValuesFile.MarkedLine | shim/i2cshim.c:372-393 | A word with any marks around it, either separator, a gap and a value: the word gets the value if and only if every mark before it is a blank, tab, brace or quote and every mark after it a blank, tab or quote; no other word gets anything |
| ValuesFile.QuotedForms | shim/README.md:134-135 | The two quoted forms of the documentation give the name the value |
| ValuesFile.UnendedLine | shim/i2cshim.c:367-371 | The last line counts without a newline |
| ValuesFile.NulEnds | shim/i2cshim.c:361-366 | Text after a NUL is not read |
| ValuesFile.ParseConcat | shim/i2cshim.c:369-400 | Whole lines followed by more text: the later text decides where it says something |
| ValuesFile.LongFileTruncated | shim/i2cshim.c:351-355 | All of the first 8191 characters of a file are read, and text after them never changes a lookup |
| Rendering.ConvertFixed | internal/sensors/api.go:311 | Any real printed with four decimals, rounded half to even and signed where it rounds to zero, is converted back by strtod to the number printed |
| Rendering.RenderedReadsBack | internal/sensors/api.go:298-318 | What the host renders, the shim's parser reads back: every field as printed, absent fields not at all, in any order of lines |
| Rendering.PrintedNear | internal/sensors/api.go:311 | What is printed is within half a ten-thousandth of the reading |
| Rendering.RenderedText | internal/sensors/values_test.go:93-98 | The text of a rendered file, letter by letter, and the signed zero |
| Rendering.NumeralLineMatches | shim/README.md:134-135 | A name with any marks around it, either separator, blanks or quotes, and a number in any form with anything after it: the key gets that number if it is the name and the marks are ones that are trimmed, and nothing if not |
| Written.ConvertNumeral | shim/i2cshim.c:394-398 | Signed or not, decimal or hexadecimal, with or without point and exponent, whatever follows: the conversion gives the number made of all the digits with the point moved to where the exponent puts it, when it is finite |
| Written.ExponentStep | shim/i2cshim.c:394 | One more in the exponent is ten times, in hexadecimal twice, the number |
| Written.SampleUp | shim/i2cshim.c:394-398 | 1.2e3 reads as 1200, whatever word follows it |
| Written.SampleDown | shim/i2cshim.c:394-398 | -2.5E-1 reads as -0.25 |
| Written.FiniteMeans | shim/i2cshim.c:395 | A number counts if and only if its magnitude is below 2^1024 - 2^970, where rounding to double reaches infinity |
| Written.WordsAreRefused | shim/i2cshim.c:395 | Infinity and not-a-number, in any case and with any sign, give no value |
| HostReader.ParseValues | internal/sensors/api.go:322-348 | The loop that splits, trims, lowers and fills the map leaves each known field with the value of its last line that gives one, and no other key |
| Agreement.ReadersAgreeIff | shim/README.md:152-153 | Host and shim say the same of a line about a field if and only if the line gives no number, or both or neither take its name and marks: case and the order of blanks, braces and quotes decide, on both sides of the name and before the value |
| Agreement.FilesAgree | shim/README.md:152-153 | A file of lines on which they agree gives both the same value of the field |
| HostLines.HostMarkedLine | internal/sensors/api.go:325-345 | Mark by mark: before a name the host takes blanks, then braces and commas, then blanks, then quotes; after it quotes, then blanks; before the value blanks, quotes, blanks; and it lowers the name; with any other mark it reads nothing |
| HostLines.OneCommaGoes | internal/sensors/api.go:336 | One comma after a value is not part of it, whatever reads the value |
| Agreement.HostReadsBack | internal/sensors/values_test.go:59-91 | The host reads back what it rendered exactly as the shim does |
| Agreement.CapitalsPartThem | internal/sensors/api.go:337 | Not the same grammar: a name in capitals is read by the host and not by the shim |
| Agreement.QuotedBracePartsThem | shim/i2cshim.c:384-391 | Nor the other way: a quote and then a brace before the name, read by the shim and not by the host |
| Tokens.NextToken | shim/i2cshim.c:242-260 | Each call yields the next trimmed, non-empty comma piece and strictly shrinks what is left; length 0 exactly at the end |
| Tokens.PiecesAreClean | shim/i2cshim.c:245-257 | Every token is non-empty, has no comma and no blank at either end |
| Tokens.JoinedPieces | shim/i2cshim.c:242-260 | Tokens joined by commas are read back as exactly those tokens |
| Tokens.PaddedPiece | shim/i2cshim.c:245-257 | A token with blanks and tabs around it is a piece of its own, last in the list or before a comma |
| Tokens.BlankPiece | shim/i2cshim.c:245-249 | Blanks and nothing else are no piece |
| Tokens.ShortPrefixMeans | shim/i2cshim.c:283-290 | Of paths that all fit 255 characters the first ones are kept, and one that does not fit may stand anywhere |
| Tokens.ReadPaths | shim/i2cshim.c:280-291 | The paths kept are exactly the first eight tokens shorter than 256, of the list or of its default |
| Startup.ReadChips | shim/i2cshim.c:297-311 | A chip is enabled if and only if its name is one of the list's tokens |
| Plan.PlanChips | internal/sensors/api.go:253-273 | The chips that carry some field asked for, in the table's order, and the fields no chip carries |
| Plan.ChosenInOrder | internal/sensors/api.go:253-265 | The chips are planned in the table's order |
| Plan.Invents | internal/sensors/api.go:193-213 | Each field the planned chips publish besides their own that was not asked for, once |
| Plan.TablesAgree | shim/i2cshim.c:160-170 | The host's and the shim's chip tables agree on names, addresses and fields |
| Plan.OneCarrier | shim/README.md:90-92 | Exactly one chip of the host's table carries each field |
| Plan.PlanEnables | internal/sensors/api.go:287-294 | By way of plan, environment and start-up: exactly the chips that carry a field asked for answer, and each such field is looked up; an empty list enables the temperature chip all the same |
| Plan.InventsCompleteIff | internal/sensors/api.go:193-196 | The list of what is published unasked is complete if and only if every planned chip is asked for all the fields it carries |
| Plan.VoltageAlonePublishesCurrent | internal/sensors/api.go:193-196 | It is not complete for a node asked for a voltage alone: the current is published too, and not listed |
| Models.FindChip | shim/i2cshim.c:333-339 | The table search finds the enabled chip of an address, or that there is none |
| Models.Reading | shim/i2cshim.c:404-409 | A field's reading is what the file's text gives the key, and the default when there is no text or it gives the key nothing |
| Models.Model | shim/i2cshim.c:439-893 | Each of the eleven models, filling the front of the buffer switch by switch with the readings clamped in the code's order, produces the bytes the decoding theorems are about |
| Models.ModelPmsa003i | shim/i2cshim.c:581-610 | The buffer holds the checksummed frame of the three readings, cut to the requested length |
| Models.ModelBmp280 | shim/i2cshim.c:880-893 | The buffer holds the requested window of the register image, wrapping after 0xFF |
| Models.OnlyOwnFields | shim/i2cshim.c:160-170 | A chip's answer depends on no field but its own |
| Models.ChipRead | shim/i2cshim.c:896-949 | At most 64 bytes of the chip's answer, zero-padded, the rest of the buffer untouched; -1 and nothing written where no chip is |
| Decoding.PctDecodes | shim/replay.c:322 | PCT2075: eleven-bit encode and decode recover the clamped temperature within 0.0625 degrees |
| Decoding.McpDecodesExactlyInRange | shim/replay.c:353-355 | MCP9808: within 0.03125 degrees if and only if the magnitude is below 255.96875 |
| Decoding.InaCurrentDecodesExactlyInRange | shim/replay.c:343-344 | INA226 current: within half a count if and only if it rounds into int16, that is strictly between -0.8192125 A and 0.8191875 A |
| Decoding.InaVoltageDecodesExactlyInRange | shim/replay.c:340-341 | INA226 voltage: within half a count if and only if it rounds into uint16 |
| Decoding.BatteryShuntWraps | README.md:148-156 | The documented battery shunt at 1450 mA, scaled to 1.45 A, wraps and reads as -0.1884 A |
| Sensors.InaRegistersCohere | shim/i2cshim.c:505-516 | While no field overflows, the shunt register equals the current register and 20000 times the power register is the product of the current and voltage registers up to the stated rounding bound |
| Decoding.AhtUnpacks | shim/replay.c:386-399 | The 20+20-bit split over five bytes is undone exactly |
| Decoding.AhtDecodes | shim/i2cshim.c:552-572 | Humidity within 50/2^20 % and temperature within 100/2^20 degrees for every input, except exactly from where rounding reaches 2^20, where they read 0 % and -50 degrees |
| Decoding.AhtFullScaleWraps | shim/i2cshim.c:565-566 | 100 % reads as 0 % and 150 degrees as -50 degrees |
| Decoding.PmsFrameDecodes | shim/replay.c:413-432 | Any three readings make a frame the driver accepts, with equal standard and environmental copies that decode to them |
| Decoding.ParticleDecodes | shim/i2cshim.c:411-418 | A particle count is within 0.5 of the reading clamped to 0..65535 |
| Decoding.CorruptionRefused | shim/replay.c:419-423 | Changing any one byte before the checksum of an accepted frame makes the driver refuse it |
| Decoding.LuxDecodes | shim/replay.c:545 | BH1750: within 0.5/1.2 lx of the clamped value |
| Decoding.DistanceDecodes | shim/replay.c:562 | RCWL-9620: within 0.0005 mm of the clamped value, in three bytes |
| Decoding.RainDecodes | shim/replay.c:614 | Rain gauge window: within 0.00005 mm of the clamped value |
| Sensors.TotalRainRegister | shim/i2cshim.c:740-748 | The four bytes of the cumulative register, which is not clamped, are right if and only if the reading is below 429496.72955 mm |
| Decoding.LpsTemperatureDecodesExactlyInRange | shim/i2cshim.c:790-800 | LPS22HB temperature: within 0.005 degrees if and only if it rounds into int16 |
| Decoding.BmpDecodes | shim/replay.c:675-689 | BMP280: the compensation polynomial with the emulated calibration recovers the clamped temperature within 0.5/5120 degrees and the clamped pressure within 0.5 Pa |
| Decoding.UnmaskedCountRightIff | shim/replay.c:736-756 | The count assembled from sign-extended bytes is right if and only if no byte has its top bit set |
| WireSamples.DocumentedPower | shim/README.md:139-148 | The documented voltage and current as the bytes of all four registers |
| WireSamples.DocumentedParticles | shim/README.md:139-148 | The documented particle counts as the whole frame, checksum included |
| WireSamples.DocumentedHumidity | shim/README.md:139-148 | The documented humidity and temperature as the six-byte frame |
| WireSamples.SilentFile | shim/README.md:135-137 | With no reading each chip's bytes are those of its documented default |
| Prefixes.ShorterReadIsPrefix | shim/i2cshim.c:896-949 | An n-byte read is a prefix of an m-byte one if and only if it is not one of the length-dependent probes, or the readings make the probe look like the reading |
| Prefixes.BmpBurst | shim/i2cshim.c:880-893 | A BMP280 burst is its registers one by one with wrap at 0xFF |
| Prefixes.LpsBurst | shim/i2cshim.c:781-798 | A five-byte LPS22HB read is the pressure read followed by the temperature read |
| FakeBus.Shim.constructor | shim/i2cshim.c:277-278 | The bus starts with every slot free and every register zero |
| FakeBus.Shim.FakeOpen | shim/i2cshim.c:978-992 | The first free slot gets the descriptor, no target, no pointer, and the reply is that descriptor, now live; ENFILE and no change if and only if none of the 32 slots is free |
| FakeBus.Shim.CloseFd | shim/i2cshim.c:1039-1047 | The descriptor's slot is freed and nothing else changes; a descriptor that is not the shim's is left to the kernel |
| FakeBus.Shim.ReadFd | shim/i2cshim.c:1051-1083 | The chip's answer from the slot's pointer, at most 64 bytes, no state changed; NAK leaves the buffer alone |
| FakeBus.Shim.WriteFd | shim/i2cshim.c:1106-1133 | Slots and registers after a write, and its result, for any target and payload |
| FakeBus.Shim.SelectFd | shim/i2cshim.c:1249-1267 | The target is set even when nobody answers there; the reply is ENXIO if and only if nobody does; only a change of target voids the pointer |
| FakeBus.Shim.RdwrFd | shim/i2cshim.c:1137-1175 | State, every message buffer, and the reply: EINVAL for none or more than eight messages, ENXIO when some address is not emulated, the count when every message has its buffer |
| FakeBus.Shim.SmbusFd | shim/i2cshim.c:1177-1226 | State, result and data union after an SMBus request of any size and direction |
| FakeBus.Shim.OtherIoctlFd | shim/i2cshim.c:1268-1296 | I2C_FUNCS and FIONREAD store their constants through a non-null pointer, every other request succeeds without effect |
| History.PointerHistory | shim/i2cshim.c:215-222 | In every reachable state a live descriptor's pointer is valid if and only if some call set it and none voided it since, and is then that call's byte |
| History.LatestSetMeaning | shim/i2cshim.c:1256-1258 | What that call is: the last setting call with no later opening, closing or change of target |
| History.OtherDescriptorsUntouched | shim/i2cshim.c:1116-1122 | No call changes another descriptor's slot |
| History.OwnPointer | shim/i2cshim.c:1209-1224 | What each call does to its own descriptor's pointer |
| History.TransferElsewhereMovesPointer | shim/i2cshim.c:1165-1170 | A transfer to another emulated address moves the descriptor's pointer and not its target |
| History.RunIsValid | shim/i2cshim.c:964-970 | Over any legal run no two slots hold one descriptor; OpenClose.InterleavingIsLegalRun shows every interleaving of threads to be one |
| Registers.ShadowHistory | shim/i2cshim.c:951-961 | In every reachable state each register is the encoding of the last payload stored to it by any descriptor, or zero |
| Registers.LastPayloadMeaning | shim/i2cshim.c:951-961 | Which payload that is: the last entry of the run's store log for that address and register |
| Registers.PlainReadBack | shim/i2cshim.c:520-523 | Two bytes written to a register that only echoes are read back exactly, over any descriptor, until replaced |
| Registers.VoidPointerReadsZero | shim/i2cshim.c:1060-1069 | A descriptor whose pointer is void reads register 0 |
| Registers.ConfigurationEchoesNonZero | shim/i2cshim.c:502-520 | INA226 configuration and calibration echo what was written if and only if it was not zero, and read 0x4127 and 2048 otherwise |
| Registers.SmallRegistersEcho | shim/i2cshim.c:452-461 | PCT2075 configuration echoes; idle time echoes, except that zero reads as one |
| Registers.RainWindow | shim/i2cshim.c:725-734 | The rain gauge answers for 24 hours if and only if the last payload to 0x26 encoded more than 1 |
| Registers.ByteReadBack | shim/i2cshim.c:802-804 | One byte written to a configuration register of the PCT2075, LPS22HB or BMP280 is read back, over any descriptor, until replaced |
| Registers.PartialRegisters | shim/i2cshim.c:485-488 | Registers that keep part of what was written, or hold a constant |
| Registers.UnmappedReadsZero | shim/i2cshim.c:462-464 | Registers nothing is behind read zero |
| Registers.SmbusWordSwapped | shim/i2cshim.c:1196-1224 | Over any run, while an SMBus word is the last payload stored to a plain register, it reads back with its bytes exchanged, so it echoes if and only if they are equal |
| Registers.SmbusWordStores | shim/i2cshim.c:1209-1224 | After any run, writing an SMBus word makes it the register's last payload |
| SmbusCalls.DataWriteStores | shim/i2cshim.c:1209-1224 | After any run, an SMBus byte or word written is the register's last payload, the high byte first, and sets the pointer |
| SmbusCalls.ByteEchoes | shim/i2cshim.c:1196-1207 | Over any run the configuration byte is read back by byte data and, while the pointer is there, by a byte read; the union's high half is kept |
| SmbusCalls.ByteWritePoints | shim/i2cshim.c:1205-1208 | A byte written sets the pointer and stores nothing |
| SmbusCalls.QuickChangesNothing | shim/i2cshim.c:1187-1188 | A quick command changes nothing |
| SmbusCalls.ReadsChangeNothing | shim/i2cshim.c:1190-1207 | Neither a read of any size nor a write of data that points nowhere changes anything |
| Paths.TransferAllOrNothing | shim/i2cshim.c:1143-1149 | A transfer naming an unemulated address changes no slot, register or buffer |
| Paths.TransferStateAsCalls | shim/i2cshim.c:1151-1174 | Otherwise its effect is that of its messages, one call each |
| Paths.TransferBuffersAsCalls | shim/i2cshim.c:1158-1164 | And each buffer ends as that message's own call would leave it |
| Paths.ReadPathsAgree | shim/README.md:163-172 | For any bytes sent and any number read, a combined transfer and write + I2C_SLAVE + read leave the same state; the combined buffer is the read's bytes followed by its own old bytes past the 64th, so they are equal if and only if at most 64 are read |
| Paths.PathsPartAtSixtyFive | shim/i2cshim.c:1158-1164 | The two paths bring different bytes when 65 are read |
| Wire.Portduino.constructor | shim/replay.c:83-86 | The layer starts with both buffers empty |
| Wire.Portduino.BeginTransmission | shim/replay.c:88-92 | Selects the address, drops what was waiting, keeps the receive queue |
| Wire.Portduino.EndTransmission | shim/replay.c:94-103 | With a stop, what waits is written and status tells whether somebody answered; without, nothing happens |
| Wire.Portduino.Rd | shim/replay.c:104-123 | Takes the queue's first byte, indices back to zero at its end; on an empty queue the byte the bus answers at the slot's pointer, -1 if and only if nobody answers |
| Wire.Portduino.RdRaw | shim/replay.c:124-138 | The queue's first byte with its sign; on an empty queue the bus's own byte |
| Wire.Portduino.Available | shim/replay.c:140-147 | How many bytes the queue holds |
| Wire.Portduino.RequestFrom | shim/replay.c:153-174 | Result, state and the whole queue for both branches, every address and every count up to 1000, the old buffer's bytes past the 64th on the combined path included |
| RegisterReads.Fetch | shim/replay.c:215-230 | Any command to any address and a request of any size up to 1000: whether it succeeds, and which bytes the takes give, in order, queue left empty |
| RegisterReads.BusioRead | shim/replay.c:178-191 | Every width and address: the low 32 bits of the big-endian number of the bytes received, stale ones past the 64th included, or all ones when nobody answers |
| RegisterReads.GetRegisterValue | shim/replay.c:195-212 | Every width and address: the first two bytes as a number, or 0 when nobody answers, queue drained, same state as the combined path |
| RegisterReads.BothPaths | shim/replay.c:178-212 | For an emulated chip and one or two bytes, the two functions called one after the other return the same number |
| Scanning.Scan | shim/replay.c:246-264 | What the scan finds for any chips, registers, pointers and stale receive bytes, the file changing between probes |
| Scanning.ScanListsEnabled | shim/replay.c:246-264 | With nothing stale: exactly the enabled chips' addresses, in increasing order |
| Scanning.ChipsInRange | shim/i2cshim.c:186-201 | Every chip's address lies in the scanned range, so none is missed |
| Scanning.ScanExactIff | shim/replay.c:104-123 | The scan is exact if and only if the receive queue was empty when it began |
| Scanning.ScanWithStale | shim/replay.c:246-264 | With stale bytes the scan lists besides the enabled chips that many of 0x30-0x37 and 0x50-0x5F, the lowest first |
| Sensors.HostValueReaches | internal/sensors/api.go:298-318 | Every finite reading the host renders is, within 0.00005, the value the driver bounds below are about |
| Sensors.FileValueMeans | shim/i2cshim.c:404-409 | The value the driver bounds are about is what the file gives the key, or else the default |
| Sensors.EveryChipBelieved | shim/replay.c:332-338 | Each chip passes the identity and readiness checks of scan and driver, whatever the file and the registers hold |
| Sensors.RainGaugeBelieved | shim/i2cshim.c:703-710 | The rain gauge passes the status and identity checks, both numbers put together from four bytes |
| Sensors.BarometerBelieved | shim/i2cshim.c:815-822 | The barometer passes the identity and busy checks |
| Sensors.ReadPct2075 | shim/replay.c:318-330 | Both paths over the bus recover the file's clamped temperature within 0.0625 degrees, and agree; 20 degrees with no reading |
| Sensors.ReadMcp9808 | shim/replay.c:348-358 | Over the bus: within 0.03125 degrees if and only if in range; 20 degrees with no reading |
| Sensors.ReadIna226 | shim/replay.c:332-346 | Over the bus: voltage and current within half a count if and only if in range; 4.05 V and 0 A with no reading |
| Sensors.ReadAht10 | shim/replay.c:361-401 | Commands, status polls and frame, the file changing before the frame: both readings within half a count, except exactly at full scale; 50 % and 20 degrees with no reading |
| Sensors.ReadPmsa003i | shim/replay.c:404-434 | The bare frame read is accepted, its copies agree, and each count is within 0.5 of the clamped reading; 0 with no reading |
| Sensors.ReadBh1750 | shim/replay.c:533-548 | Over the bus: within 0.5/1.2 lx; 0 with no reading |
| Sensors.ReadRcwl9620 | shim/replay.c:551-564 | Over the bus: within 0.0005 mm; 0 with no reading |
| Sensors.ReadCgRadSens | shim/replay.c:567-580 | Over the bus, bytes masked: within 0.05; 0 with no reading |
| Sensors.ReadCgRadSensUnmasked | shim/replay.c:736-760 | Over the bus, bytes signed: right if and only if every byte of the count is below 0x80 |
| Sensors.ReadRain | shim/replay.c:599-618 | Hours written, four bytes read: the right window's value within 0.00005 mm; 0 with no reading |
| Sensors.ReadLps22 | shim/replay.c:621-644 | Over the bus: pressure within 0.5/4096 hPa, temperature within 0.005 degrees if and only if in range; 1013.25 hPa and 20 degrees with no reading |
| Sensors.ReadBmp280 | shim/replay.c:649-693 | Calibration, one burst, polynomial, the file changing in between: within 0.5/5120 degrees and 0.5 Pa; 20 degrees and 101325 Pa with no reading |
| OpenClose.OpenCloseSafe | shim/i2cshim.c:972-992 | Whatever the interleaving, other bus calls in between: no slot shared, every slot's descriptor open in the kernel, at most 32 held, none leaked, ENFILE included |
| OpenClose.InterleavingIsLegalRun | shim/i2cshim.c:964-992 | Every reachable state of the threads is that of a legal run of calls, insert being the open and clear the close, so all properties of runs hold of them |
| OpenClose.OpenFinishes | shim/i2cshim.c:972-992 | In every reachable state an idle thread's open gets a slot for its descriptor when one is free, and otherwise leaves everything as it was |
| OpenClose.CloseFinishes | shim/i2cshim.c:1039-1047 | And its close leaves the descriptor in no slot and not open |
| OpenClose.ClearMustComeFirst | shim/i2cshim.c:1039-1047 | With the slot cleared after the real close instead, two threads reach a state with two slots on one descriptor |
| Session.EventsInOrder | sdk/sdk.go:123-146 | Consumed events are a prefix of what was received after Welcome, with nothing after Stop; at most one message is lost |
| Session.LostOnlyWhenCancelled | sdk/sdk.go:137-141 | Over every run without a cancellation from outside, what was received is consumed or on the channel, but for the message being handled, and the loop ends only at Stop or the stream's failure |
| Session.WaitsOnlyWhenFull | sdk/sdk.go:98 | The channel holds at most 256 messages, and the loop waits for room only while it holds exactly that many |
| Session.ChannelClosesOnce | sdk/sdk.go:124-125 | The channel closes at most once, only after the context is cancelled, and nothing is put on it afterwards |
| Session.SettingsNotStale | sdk/sdk.go:132-140 | A consumer of k settings events gets the k-th or a later value |
| Session.SettingsMoveForward | sdk/sdk.go:172-177 | Over any further run the settings value never goes back |
| Session.Client.ReadLoop | sdk/sdk.go:123-146 | The whole loop on any stream, others acting between its steps: it is a run of the steps above; it ends at the first Stop, at the stream's failure or at a message given up, and a message is given up only when the context was cancelled from outside; then the context is cancelled and the channel closed once |
| Session.Client.CurrentSettings | sdk/sdk.go:172-177 | What Settings returns, at any point of any run |

## Left out

- Interposition: `dlsym`, the `open` and `ioctl` variants, `__read_chk`, `__ioctl_time64`, tracing, line buffering.
- IEEE-754 rounding, `lround` of values beyond `long`, and NaN arithmetic: readings are real numbers.
- The locale of `strtod`, underflow to zero, and the characters after `nan(`: none changes which value is finite.
- `errno` values past success or the kind of failure; a null request pointer of `I2C_RDWR` is an empty transfer.
- The real file read: a file is its text, and one that cannot be opened or is empty gives no value.
- Two read messages of one transfer that look the same field up see the same text.
- `read` answers after releasing the lock: the model takes pointer, registers and answer in one step.
- Aliasing of buffers: a transfer's message buffers are values, and a caller's buffer is never one of the shim's arrays.
- `fd` below 0, which would match free slots, and Portduino's unchecked writes past its 1000-byte buffer.
- Big-endian hosts: the byte member of the SMBus union is the low half of its word.
- The fixed readings and expected texts of `replay.c`.
- The sorting of `RenderValues` and its filter of fields: the theorems hold for any order and any selection.
- What `Sscanf` makes of numbers where it differs from `strtod`: infinities, underscores, and hexadecimal without a `p`.
- Blanks and letters outside ASCII, which the host's reader also trims and lowers.
- gRPC, credentials, the environment, heartbeats and JSON decoding of the session: the stream is a message sequence.
- Radio, mesh, web and generated code: nothing in it touches the bus.
