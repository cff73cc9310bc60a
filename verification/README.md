# Fulliautomatix spray-head layer pipeline, modelled in Dafny

Fulliautomatix turns one sliced layer of G-code into the program of a
spray print head. The head has 11 blocks of 8 valves, 5 mm apart. The
pipeline runs in three stages.

1. `get_g_move` reads `G0`/`G1` lines into (X, Y, Z, E) moves.
   `GCodeParser::parse` feeds consecutive moves into a `SprayPattern`:
   one row of bytes per Y millimetre, one bit per valve and pass. Each
   vertical extruding segment switches one valve on over a half-open
   range of rows.
2. `GCodeGenerator::generate` writes the pattern out. It emits a layer
   header and then a forward pass over the rows. For each row the pass
   writes a `G1 Y<y>` line and a `VALVES_SET VALUES=...` line with the
   even nozzles of that row. The bit pairs are separated by
   `interlace_and_separate`, and each byte's bit order is reversed. After
   a turn comes a return pass, which walks the rows in reverse with the
   odd nozzles. A layer end closes the output.
3. The plugin's `filterLines` does two things:
   - it finds the `;LAYER:<n>` marker with `get_layer_nr`;
   - it parses every later line and generates the layer.

   `get_last_layer` cuts the last layer out of a whole G-code text.

The model is functional:
- moves, patterns and parser states are immutable datatypes;
- every operation is a function or a short method over sequences;
- floats are `real`;
- C++ integer narrowing and truncating division are written out (module `Num`).

| file | module | models |
|---|---|---|
| wrappers.dfy | Wrappers | `Option`, `Result`, and the four exceptions as `Error` values |
| numeric.dfy | Num | `int`/`uint16_t` ranges, `static_cast<int>`, C++ `/` and `%`, powers of ten |
| text.dfy | Text | characters, digit strings, `std::to_string`, joining and splitting, `find`/`rfind` |
| bits.dfy | Bits | `std::bitset<8>` bits, `reverse`, set-bit counts |
| interlace.dfy | Interlace | `interlace_and_separate` and its inverse |
| gcode.dfy | GCode | `GCodeMove`, `isExtrusionMove`, `get_g_move` with the `istringstream` float reader |
| gcode_text.dfy | GCodeText | G-code lines built from words, and what `get_g_move` reads back from them |
| head.dfy | Head | `PrintHead` |
| pattern.dfy | Pattern | `SprayPattern` |
| parser.dfy | Parser | `GCodeParser` |
| scenario.dfy | Scenario | a four-line layer fragment traced through the parser |
| emitter.dfy | Emitter | the layer commands and `generate` |
| driver.dfy | Plugin | `get_layer_nr`, `get_last_layer`, `filterLines`, `PrintManager` |

The model follows the code as written, including these points:
- A move is extruding unless `|E| < 1e-8`, so `|E| == 1e-8` counts as extruding.
- `add_spray_line` paints the column of the first argument's X (the previous move). The X is converted to `uint16_t` on the call to `set_valves`.
- A non-vertical segment throws. The throw is caught inside `parse` before the assignments, so the parser state is kept whole.
- The idle valve lines of the turn and of the layer end always carry eleven zeros, whatever the row width.
- The `y_pos == 0` branch of the return pass never runs, because every return-pass Y is at least one. `Emitter.GenerateReturnRow` proves it. The comment at process.h:298 says the branch "can only happen if the bed_begin_y_coord = 0", but a start of 0 still puts every return-pass Y at 1 or more.
- `generate` ignores `bed_length`.
- `PrintManager` computes `bed_length - 1` on an `int`, so its argument must not be the smallest `int`.
- `get_layer_nr` reads its number as `operator>>` into `int` does: whitespace, a sign, digits. A value outside `int` sets the failbit, so it gives -2 as well.

## Model

| member | source | states |
|---|---|---|
| Num.TruncDivMod | include/processor/process.h:41-42 | C++ `/` and `%` rebuild the dividend, and the remainder carries the dividend's sign and is smaller than the divisor |
| GCode.IsExtrusionMove | include/processor/gcode.h:31-38 | a move extrudes exactly when E is at least 1e-8 away from zero |
| GCode.ZeroMoveIsTravel | include/processor/gcode.h:15-21 | the default move is all zeros and does not extrude |
| GCode.SetField | include/processor/gcode.h:61-80 | reading into one field changes that field and no other |
| GCode.ScanFieldsFound | include/processor/gcode.h:58-81 | the field loop reports a parameter exactly when an X, Y, Z or E follows the command word |
| GCode.ScanFieldsKeeps | include/processor/gcode.h:53-81 | a letter that never occurs keeps its field at the value it had |
| GCode.GetGMove | include/processor/gcode.h:46-87 | a line fails with NotAGMove exactly when it does not start with G0 or G1; it fails with NoParameter exactly when no field letter follows the command word; otherwise it succeeds; letters absent from the line leave their fields 0 |
| GCode.NoEMeansTravel | include/processor/gcode.h:31-86 | a parsed line without an E never extrudes |
| GCode.ScanFloat | include/processor/gcode.h:63-78 | a successful float read consumes at least one character and stays within the line |
| GCode.ScanFloatEnd | include/processor/gcode.h:63-78 | the read leaves its float unwritten exactly when only whitespace remains |
| GCodeText.ApplyLastWins | include/processor/gcode.h:59-81 | when a letter repeats, its field ends with the last value written for it |
| GCodeText.ScanDecimal | include/processor/gcode.h:63-78 | reading a decimal number written out in the line gives back its value and stops right after it |
| GCodeText.ScanWords | include/processor/gcode.h:59-81 | the field loop over a line of words sets every field word's field, in order; other words such as `F8000` change nothing |
| GCodeText.ParseRendered | include/processor/gcode.h:46-87 | a G0/G1 line built from words parses to the move its words describe; without a field word it is rejected with NoParameter |
| GCodeText.ExtrudingMoveExample | include/processor/gcode.h:46-87 | "G1 X0 Y700 Z23 E65.23" reads as (0, 700, 23, 65.23) and extrudes |
| GCodeText.TravelMoveExample | include/processor/gcode.h:46-87 | "G1 X0 Y700 Z24" reads as (0, 700, 24, 0) and does not extrude |
| GCodeText.FeedRateAndRepeatExample | include/processor/gcode.h:59-81 | a feed-rate word leaves the move alone, and a repeated Y keeps its last value |
| GCodeText.LongCommandExample | include/processor/gcode.h:48-56 | "G10 X5" passes the two-character check and reads as X = 5 |
| GCodeText.RejectedExamples | include/processor/gcode.h:48-85 | "G6 X5 Y120 Z9" and "G" are not moves; "G1" and "G1 F8000" have no parameter |
| Head.NrOfNozzles | include/processor/process.h:45-48 | the nozzle count is blocks times nozzles per block, reduced modulo 65536 |
| Head.GetBlockIndices | include/processor/process.h:38-43 | block times nozzles-per-block plus offset is the truncated valve index; for a non-negative index the offset lies below nozzles-per-block, for a negative one it is non-positive |
| Head.NonNegativeAddress | include/processor/process.h:38-43 | a non-negative X gives a non-negative block and an offset within the block |
| Head.AddressOfValve | include/processor/process.h:38-43 | every X within a valve's strip addresses exactly that valve's block and offset |
| Head.StandardHeadExamples | include/processor/process.h:38-53 | the 5 mm, 11 x 8 head has 88 nozzles and is 440 mm wide; X = 30 is (0, 6) and X = 860 is (21, 4) |
| Pattern.CeilDiv8 | include/processor/process.h:70 | the row width is the least byte count that holds the bits |
| Pattern.NewSprayPattern | include/processor/process.h:68-74 | a new pattern has one row per Y step, every row `ceil(nozzles * passes / 8)` bytes, and every bit off |
| Pattern.StandardWidth | include/processor/process.h:45-74 | with the standard head and two passes a row is 22 bytes |
| Pattern.FreshIsEmpty | include/processor/process.h:68-74 | no valve of a new pattern is on |
| Pattern.GetYIndex | include/processor/process.h:116-119 | a Y within the `uint16_t` range maps to the row whose unit interval contains it; otherwise it wraps modulo 65536 |
| Pattern.SetValves | include/processor/process.h:99-113 | setting valves never changes the pattern's head, width or row lengths |
| Pattern.SetValvesBit | include/processor/process.h:99-113 | after `set_valves` a bit is on exactly when it was on before, or when it is the column's valve in a row `yb <= n < ye` |
| Pattern.SetValvesBits | include/processor/process.h:99-113 | the same for every bit at once: nothing is cleared, the end row is excluded, no other valve changes |
| Pattern.SetValvesCommute | include/processor/process.h:99-113 | two calls of `set_valves` give the same pattern in either order |
| Pattern.SetValvesIdempotent | include/processor/process.h:99-113 | repeating a call of `set_valves` changes nothing |
| Pattern.SortByY | include/processor/process.h:89-94 | the endpoints come back in Y order, as the same pair |
| Pattern.AddSprayLine | include/processor/process.h:81-97 | a segment fails exactly when its X values differ by more than 1e-8; otherwise the pattern keeps its shape |
| Pattern.AddSprayLineBit | include/processor/process.h:81-113 | after a vertical segment a bit is on exactly when it was on, or when it is the valve under the first endpoint's X in a row from the truncated lower Y up to, not including, the truncated higher Y |
| Pattern.AddSprayLineSymmetric | include/processor/process.h:81-97 | swapping the endpoints of a segment whose X values name the same column gives the same pattern |
| Pattern.AddSprayLineUsesBeginX | include/processor/process.h:96 | moving the second endpoint's X within the tolerance changes nothing: only the first endpoint's X is used |
| Pattern.PaintExample | include/processor/process.h:81-119 | a vertical segment at X = 30 from Y = 30 to Y = 40 switches on bit 6 of byte 0 in rows 30 to 39 and nowhere else nearby |
| Parser.NewParser | include/processor/process.h:323-326 | a new parser has no previous move, a zero move stored, and an empty pattern of the bed's length |
| Parser.FilterParserShape | include/processor/process.h:323-326 | an 880 mm bed with the standard head makes two passes, so rows of 22 bytes |
| Parser.Parse | include/processor/process.h:333-353 | parsing a line never changes the pattern's shape |
| Parser.ParseIgnoresNonMoves | include/processor/process.h:333-351 | a line `get_g_move` rejects leaves the parser unchanged |
| Parser.ParseTravel | include/processor/process.h:337-345 | a non-extruding move only becomes the previous move and sets the first-move flag |
| Parser.ParseFirstMove | include/processor/process.h:337-345 | the first move never paints; it becomes the previous move |
| Parser.ParseSkipsNonVertical | include/processor/process.h:341-351 | an extruding move whose segment from the previous move is not vertical leaves pattern, previous move and flag unchanged |
| Parser.ParseBit | include/processor/process.h:333-353 | after a line, a bit is on exactly when it was on, or when the line paints a vertical segment from the previous move and the bit is that segment's valve in one of its rows |
| Parser.ParseAllGrows | include/processor/process.h:333-353 | feeding lines never switches a valve off and never changes the pattern's shape |
| Parser.ParseAllWithoutSegments | include/processor/process.h:337-343 | lines that paint no segment leave the pattern as it was |
| Parser.ParseAllNonMoves | include/processor/process.h:333-351 | lines that are not moves leave the parser as it was |
| Parser.ParseAllAppend | include/processor/process.h:333-353 | feeding two runs of lines one after the other is feeding their concatenation |
| Parser.ParseAllShape | include/processor/process.h:333-353 | a run of lines keeps the pattern's shape |
| Scenario.ScenarioRun | include/processor/process.h:333-353 | a G0 to the origin, a stroke to Y = 5, a travel to X = 15 and a stroke back to Y = 0 leave the last move as the previous move |
| Scenario.ScenarioBit | include/processor/process.h:333-353 | after that fragment a bit is on exactly when it is valve (0, 0) in rows 0-4 or valve (0, 3) in rows 0-9 |
| Scenario.ScenarioPattern | include/processor/process.h:333-353 | after that fragment, valve (0, 0) is on exactly in rows 0-4 and valve (0, 3) exactly in rows 0-9 |
| Bits.ReverseByte | include/processor/process.h:242-251 | bit j of the reversed byte is bit 7 - j of the original |
| Bits.SwapLoopReverses | include/processor/process.h:245-250 | the four swaps of the loop reverse the byte |
| Bits.Reverse | include/processor/process.h:242-251 | the swap loop leaves bit j equal to the original bit 7 - j |
| Bits.ReverseInvolution | include/processor/process.h:242-251 | reversing twice gives the byte back |
| Bits.ReversePopCount | include/processor/process.h:242-251 | reversing keeps the number of open valves |
| Interlace.DeinterleaveBits | include/processor/process.h:229-239 | output bit b of byte k < W/2 is bit 2(b%4) of input byte 2k + b/4; output bit b of byte W/2 + k is bit 2(b%4)+1 of the same input byte |
| Interlace.Deinterleave | include/processor/process.h:218-240 | the separated row has the length of the input row |
| Interlace.InterleaveDeinterleave | include/processor/process.h:210-240 | no bit is lost: interleaving the separated row gives the row back |
| Interlace.DeinterleaveInterleave | include/processor/process.h:210-240 | no two bits collide: separating an interleaved row gives it back |
| Interlace.DeinterleavePopCount | include/processor/process.h:210-240 | the separated row has as many bits on as the input row |
| Interlace.ScatterByte | include/processor/process.h:231-238 | the inner loop for input byte n replaces nibble n%2 of output bytes n/2 and n/2 + W/2 with the even and the odd bits of byte n, and touches no other byte |
| Interlace.InterlaceAndSeparate | include/processor/process.h:218-240 | an odd-length row throws; an even-length row becomes exactly its deinterleave |
| Interlace.AlternatingExample | include/processor/process.h:210-217 | [0xAA, 0xAA] becomes [0x00, 0xFF] |
| Interlace.WorkedExample | include/processor/process.h:210-240 | [0xD1, 0x27] becomes [0x3D, 0x58] |
| Interlace.WorkedExampleWide | include/processor/process.h:210-240 | a four-byte row separates into the expected even and odd halves |
| Emitter.YLineText | include/processor/process.h:270-294 | a positioning line is `G1 Y` and the decimal Y, with ` F8000` when requested |
| Emitter.YLineReads | include/processor/process.h:270-294 | read back, a positioning line is a non-extruding move to that Y with every other field 0 |
| Emitter.ValuesRoundTrip | include/processor/process.h:278-284 | read back, a valve line lists exactly its bytes' values, each below 256 |
| Emitter.IdleLineIsZeros | include/processor/process.h:178-195 | the fixed closing line is the valve line of eleven zero bytes |
| Emitter.LayerBeginReads | include/processor/process.h:166-176 | both numbered header lines carry the layer index plus one |
| Emitter.LayerReturnReads | include/processor/process.h:178-186 | the turn moves to Y, closes all eleven blocks and moves to Y + 1 |
| Emitter.LayerEndReads | include/processor/process.h:188-195 | the layer end moves to one before its argument, closes all blocks and moves home to Y0 |
| Emitter.Generate | include/processor/process.h:253-316 | generation fails exactly when some row has odd length, with the odd-row error |
| Emitter.RenderNoNewline | include/processor/process.h:166-195 | no rendered line contains a newline |
| Emitter.GenerateText | include/processor/process.h:253-316 | the returned text, split at its newlines, is the rendered lines of the layer in order, followed by the empty piece after the last newline |
| Emitter.LayerBeginLines | include/processor/process.h:166-176 | `layer_begin_cmd` writes seven lines, none of which sets the valves |
| Emitter.LayerReturnLines | include/processor/process.h:178-186 | `layer_return_cmd` writes five lines; only the second sets the valves |
| Emitter.LayerEndLines | include/processor/process.h:188-195 | `layer_end_cmd` writes three lines; only the second sets the valves |
| Emitter.ForwardPass | include/processor/process.h:266-286 | when no row is odd, the forward loop writes two lines per row, alternating a positioning line and a line that sets the valves |
| Emitter.ReturnPass | include/processor/process.h:291-310 | the return loop writes two lines per row, alternating a positioning line and a line that sets the valves |
| Emitter.ForwardPassFails | include/processor/process.h:267-269 | the forward loop throws exactly when a remaining row has odd length |
| Emitter.ForwardPassRow | include/processor/process.h:266-286 | row r of the forward pass is a move to start + r, with the feed rate on row 0 only, then its bit-reversed even-nozzle bytes |
| Emitter.ReturnPassRow | include/processor/process.h:291-310 | in the return pass row r comes after the rows above it, as a move to its Y and then its return values there |
| Emitter.ReturnPassValues | include/processor/process.h:296-306 | at any Y other than 0 the return values are the row's bit-reversed odd-nozzle bytes |
| Emitter.GenerateFrame | include/processor/process.h:253-316 | a layer has 15 + 4R lines: 7 header lines, 2R forward lines, 5 turn lines at start + R, 2R return lines and 3 end lines at start + 1 |
| Emitter.GenerateForwardRow | include/processor/process.h:264-286 | line 7 + 2r moves to start + r, with the feed rate only when r = 0, and line 8 + 2r carries row r's even-nozzle values |
| Emitter.GenerateReturnRow | include/processor/process.h:288-313 | line 10 + 4R - 2r moves to start + r + 1, and line 11 + 4R - 2r carries row r's odd-nozzle values; the zero override never applies |
| Emitter.GenerateRowPositions | include/processor/process.h:270-294 | read back, each row's positioning lines move to start + r on the way out and to start + r + 1 on the way back, with the feed rate only on the first |
| Emitter.DecodeValues | include/processor/process.h:269-306 | the two passes' values of a row determine the row: reversing and interleaving them rebuilds it |
| Emitter.GenerateRecoversRow | include/processor/process.h:253-316 | reading back the two valve lines of any row of a generated layer gives that row of the pattern |
| Emitter.ValvesPopCount | include/processor/process.h:269-306 | the two valve lines of a row open as many valves in total as the row has bits on |
| Emitter.GenerateOpensLayer | include/processor/process.h:166-176 | the layer text starts with the comment line `;Layer<n + 1>` |
| Emitter.SetsValvesKinds | include/processor/process.h:178-295 | a line starts with `VALVES_SET` exactly when it is a valve line, a zero override or the idle line |
| Emitter.GenerateValveText | include/processor/process.h:253-316 | a layer of R rows has exactly 2R + 2 lines that start with `VALVES_SET` |
| Plugin.GetLayerNr | include/plugin/modify.h:35-66 | the result fits an `int`; the text before the first ':' other than ";LAYER" gives -3; a non-negative result comes only from a line that starts with ";LAYER:" |
| Plugin.LayerNrRoundTrip | include/plugin/modify.h:43-53 | ";LAYER:" followed by a written `int`, possibly negative, and a non-digit gives that number |
| Plugin.LayerNrMissing | include/plugin/modify.h:43-58 | ";LAYER:" followed by no digit gives -2 |
| Plugin.ScanInt | include/plugin/modify.h:46-49 | a number that is read fits an `int` and comes from a non-empty text |
| Plugin.ScanIntReads | include/plugin/modify.h:46-49 | whitespace, an optional sign and a maximal run of digits read as their signed value when it fits an `int`; outside `int` the read fails |
| Plugin.ScanIntNoDigits | include/plugin/modify.h:46-49 | when no digit follows the whitespace and the optional sign, the read fails |
| Plugin.LayerNrOfRest | include/plugin/modify.h:41-58 | after ";LAYER:" the result is the number read from the rest of the line, or -2 when that read fails |
| Plugin.LayerNrReads | include/plugin/modify.h:41-58 | ";LAYER:" then whitespace, a sign and digits gives their value when it fits an `int`, and -2 otherwise |
| Plugin.LayerNrNoDigits | include/plugin/modify.h:41-58 | ";LAYER:" then whitespace and a sign with no digit after them gives -2 |
| Plugin.GetLastLayer | include/plugin/modify.h:122-140 | a non-empty result starts with ";LAYER:", has no other ";LAYER:", and has no ";TIME_ELAPSED:" |
| Plugin.GetLastLayerAt | include/plugin/modify.h:125-139 | when ";LAYER:" occurs at lp and nowhere later, and ";TIME_ELAPSED:" occurs at tp >= lp and nowhere in [lp, tp), the result is the text from lp up to tp |
| Plugin.GetLastLayerNoTime | include/plugin/modify.h:131-135 | when no ";TIME_ELAPSED:" starts at or after the last ";LAYER:", the result is "" |
| Plugin.GetLastLayerExtracts | include/plugin/modify.h:122-140 | a text with one last layer block followed by ";TIME_ELAPSED:" gives back that block |
| Plugin.GetLastLayerNone | include/plugin/modify.h:125-129 | a text without ";LAYER:" gives "" |
| Plugin.FilterParser | include/plugin/modify.h:74-75 | the plugin's parser starts empty, with 1400 even rows of 22 bytes |
| Plugin.FirstMarkerSpec | include/plugin/modify.h:81-94 | the marker line found is the first whose layer number is non-negative; no marker is found only when every line gives a negative number |
| Plugin.ScanLayer | include/plugin/modify.h:81-94 | the loop ends with a negative number exactly when no line is a marker, and then the parser is untouched; otherwise the parser has read every line after the first marker, and none before |
| Plugin.FilterLines | include/plugin/modify.h:69-120 | the result is "" exactly when no line is a marker; otherwise it is the layer generated from Y 0 for the marker's number, from the lines after the marker, and it opens with that layer's comment |
| Plugin.NewPrintManager | include/processor/process.h:387-394 | the manager keeps `bed_length - 1` and gives its parser one row per Y step of it, narrowed to `uint16_t` |
| Plugin.ManagerParse | include/processor/process.h:401-404 | the manager passes a line to its parser and keeps everything else |
| Plugin.ManagerGenerate | include/processor/process.h:396-399 | generation from the manager fails exactly when a row has odd length |
| Plugin.StandardManager | include/processor/process.h:387-399 | a manager with the standard head has 22-byte rows and generates after any run of lines |

## Left out

- The gRPC `Generate::run` coroutine and its translation of exceptions into statuses (include/plugin/modify.h:142-184) are network plumbing and are not part of this model.
- include/plugin/settings.h and the Python plugin files are not part of this model. They cover plugin registration, settings lookup, the file system and the environment.
- src/test.cpp is a superseded prototype and is not part of this model.
- `asdasd`, `ValveCommand`, `print_begin_cmd`, `print_end_cmd`, `extractEverySecondBit` and the unused constants of process.h are left out. They are file I/O, dead code or never called.
- `set_layer_nr` and `_layer_nr` are left out: the value is stored and never read.
- `get_y_size`, `get_spray_pattern_data_width` and the buffer reservation in `generate` are left out. They are accessors and a capacity hint, with no effect on the text.
- Floats are exact reals. IEEE rounding, infinities, NaN and the `istringstream` float overflow are not modelled. A float-to-integer conversion outside its target range is undefined behaviour in C++, so it is a precondition.
- Out-of-range row, block or bit writes in `set_valves` are undefined behaviour in C++, so they are preconditions.
- Plugin.FilterLines takes the layer as a sequence of lines. The regex tokenisation is left out: it keeps each line's newline, and it yields an empty token at the end.
- The `SprayPattern` that `generate` receives is a copy, so the caller's pattern is untouched. In the model every value is immutable, which makes this implicit.
