# Chamber temperature controller — a Dafny model

The chamber program regulates an enclosure with a Peltier element. On a
Raspberry Pi it reads NTC thermistors through an MCP3008 analog-to-digital
converter over SPI, averages the channel temperatures, feeds the average and
a button-adjusted setpoint to a PID controller, and drives two hardware PWM
channels (18: Peltier element, 19: fans) and a direction pin (GPIO 23) from
the PID output.

The model has three modules, and a small `Bytes` module of facts about single
bytes that `Mcp3008` uses:

- `Mcp3008` (`Mcp3008.dfy`): `get_a2d_val`. It builds the three-byte request
  `[1, 0x80 | ((ch & 7) << 4), 0]` (start bit, single-ended bit, channel in
  D2..D0). The full-duplex transfer overwrites that buffer in place. The
  reply is merged into a 10-bit count. Bytes are `bv8` and the merge is
  computed in `bv32` like C's `int`. `spiWriteRead` is a method that clocks
  the buffer out and overwrites it with the converter's answer, which is an
  input parameter. `ParseRequest` reads back the configuration bits of a
  request framed as get_a2d_val frames it, with byte 0 exactly the start
  byte 1. `EncodeResponse` builds a reply for a count. These two partners give
  round trips in both directions. The two copies of `get_a2d_val`
  (src/application.cpp:64-80 and software/application.cpp:63-79) are the
  same text, so one model covers both.
- `Thermistor` (`Thermistor.dfy`): `convert_a2d_to_temp` and
  `convert_to_fahrenheit`. The divider algebra (`v_t`, `r_t`) and both
  curves, with the source's Steinhart–Hart coefficients and beta value, are
  exact over the reals. The natural logarithm is a function parameter. Where
  a property needs facts about it (that it is increasing, and a bound at
  2^-12), a lemma states them as a hypothesis. The model keeps the special
  floating-point values the chain produces:
  - A full-scale count makes `V_REF - v_t` zero. Then `r_t` is +∞ and both
    solvers give 0 K.
  - A zero count takes `log(0)` = −∞. Then Steinhart–Hart gives NaN and
    Beta gives 0 K.
  - A count outside 0..1023 gives a negative `r_t`, and its logarithm is NaN.
  - A curve's denominator that vanishes gives +∞. This is the pole of the
    Beta curve at `r_norm` = −3895/298.15 ≈ −13.06 and the real root of the
    Steinhart–Hart cubic between −14 and −13. Counts 1..1022 keep `r_norm`
    at or above ln(1100/1022/2252) ≈ −7.65, well clear of both.

  An unknown solver name leaves `temp_K` at its initial 0.
- `Chamber` (`Chamber.dfy`): the control loop of src/application.cpp `main`.
  The class `Controller` holds the loop's state:
  - the 8-slot `temps` array;
  - `temp_target`, `loop_count` and the level of the direction pin;
  - the two PWM settings;
  - the log of display refreshes.

  `Step` is one iteration of the loop:
  - it writes `temps[chan]` for each configured channel;
  - it averages all 8 slots over the channel count, truncating toward zero;
  - it asks the PID for a duty cycle, which is an input function of
    (setpoint, measured);
  - it sets both PWMs to `10000·|duty|`;
  - it classifies HEAT / COOL / REST at ±25, setting the direction pin or
    switching both PWMs off.

  The setpoint callbacks, edge delivery, one pass of the loop, the shutdown
  and a whole run until stop are further methods. Their contracts are stated
  against pure functions (`Written`, `LoopTemperature`, `Classify`,
  `Actuate`, `SetpointDelta`, `DisplayCount`). The loop state also exists as
  a value, `Snapshot`: `Iterate` is one pass on it and `Run` a whole script.
  `RunUntilStop` ends in exactly the state `Run` gives, with both PWMs off.
  Lemmas state the properties of these functions.

Descriptions of this controller speak of a deadband arbiter with a
one-cycle reversal interlock, multi-pass averaging and an over-temperature
cutoff. The code does none of this, and the model follows the code:
- The loop classifies the PID output with fixed ±25 thresholds. It has no
  deadband, no debounce interlock and no RESTING state machine that persists
  across iterations.
- It samples each channel once per iteration. There are no repeated
  averaging passes.
- It has no over-temperature cutoff.
- The setpoint has no minimum or maximum.

## Model

| member | source | states |
|---|---|---|
| Mcp3008.ChannelBits | src/application.cpp:71 | `Channel & 7` is the residue of the channel modulo 8, in 0..7 |
| Mcp3008.RequestFrame | src/application.cpp:70-72 | the request buffer get_a2d_val fills is three bytes long; RequestLayout and RequestRoundTrip give its contents |
| Mcp3008.RequestLayout | src/application.cpp:70-72 | the request is byte 0 = 1, byte 2 = 0, and byte 1 has bit 7 set, bits 6..4 = channel mod 8, bits 3..0 clear |
| Mcp3008.RequestAliasing | src/application.cpp:71 | channels c and c + 8 produce identical frames |
| Mcp3008.RequestRoundTrip | software/application.cpp:69-71 | the converter reads the frame as a single-ended conversion of channel mod 8 |
| Mcp3008.RequestFrameUnique | software/application.cpp:69-71 | every single-ended request with the don't-care bits clear is the frame built for its channel |
| Mcp3008.ParseRequest | software/application.cpp:52-54 | a request framed as get_a2d_val frames it has three bytes and the start byte 1, and names a channel in 0..7 |
| Mcp3008.DecodeResponse | src/application.cpp:76-77 | the merged count is always in 0..1023 |
| Mcp3008.DecodeValue | software/application.cpp:75-76 | the count is (byte1 & 3)·256 + byte2 |
| Mcp3008.DecodeIgnoresJunk | src/application.cpp:76-77 | byte 0 and bits 7..2 of byte 1 do not affect the count |
| Mcp3008.DecodeEncode | software/application.cpp:75-76 | any count in 0..1023 placed in byte 1 bits 1..0 and byte 2 decodes back to itself, whatever the other bits |
| Mcp3008.EncodeDecode | software/application.cpp:55-57 | every reply is the encoding of its own count with its own junk bits |
| Mcp3008.SpiWriteRead | src/mcp3008/mcp3008Spi.cpp:78-107 | the bytes sent are the buffer as it was, and afterwards the buffer holds the converter's reply |
| Mcp3008.GetA2dVal | src/application.cpp:64-80 | the bytes on the bus are the request frame for the channel, the converter sees channel mod 8 single-ended, and the result is the reply's 10-bit count in 0..1023 |
| Thermistor.DividerVoltage | software/application.cpp:109 | v_t is within 0..V_REF for counts 0..1023 and equals V_REF exactly at full scale |
| Thermistor.DividerResistance | software/application.cpp:109-110 | r_t is finite, except that it is +∞ exactly at a2d = 1023 |
| Thermistor.DividerAlgebra | software/application.cpp:109-110 | below full scale, V_REF − v_t = V_REF·(1023 − a2d)/1023 and r_t = R_f·a2d/(1023 − a2d) |
| Thermistor.DividerInRange | software/application.cpp:109-110 | for 0 < a2d < 1023, 0 < v_t < V_REF and r_t = R_f·a2d/(1023 − a2d) > 0 |
| Thermistor.DividerSign | software/application.cpp:110 | r_t is negative for counts outside 0..1023, zero at 0 and positive in between |
| Thermistor.DividerBounds | software/application.cpp:109-110 | for counts 1..1022, R_f/1022 ≤ r_t ≤ 1022·R_f |
| Thermistor.DividerOpenAtFullScale | software/application.cpp:110 | at a2d = 1023 the denominator V_REF − v_t is zero |
| Thermistor.DividerMonotone | software/application.cpp:110 | r_t is strictly increasing in a2d over 0 ≤ a2d < 1023 |
| Thermistor.LogRatio | software/application.cpp:111 | r_norm is +∞ exactly for r_t = +∞, −∞ exactly for r_t = 0, and NaN exactly for a negative or NaN r_t |
| Thermistor.Reciprocal | software/application.cpp:122 | 1/d is +∞ exactly when d is 0, and otherwise a number whose product with d is 1 |
| Thermistor.SteinhartHartKelvin | software/application.cpp:116-122 | 1/(A + B·r + C·r² + D·r³) is never −∞; it is NaN exactly for r_norm = −∞ or NaN, and +∞ exactly at a root of the cubic |
| Thermistor.BetaKelvin | software/application.cpp:128-130 | 1/(r/3895 + 1/298.15) is never −∞; it is NaN exactly for a NaN r_norm, and +∞ exactly where the sum vanishes |
| Thermistor.BetaPole | software/application.cpp:128-130 | the Beta curve is +∞ exactly at r_norm = −3895/298.15 and finite and positive above it |
| Thermistor.SteinhartHartPoleBracket | software/application.cpp:116-122 | the Steinhart–Hart sum is negative at r_norm = −14 and positive at −13, so the curve has a pole between |
| Thermistor.SteinhartHartPositive | software/application.cpp:116-122 | for r_norm ≥ −10 the Steinhart–Hart sum is positive, so temp_K is finite and positive |
| Thermistor.SolveKelvin | software/application.cpp:113-131 | temp_K is never −∞; a NaN r_norm stays NaN under either solver; +∞ only for a known solver at a finite r_norm |
| Thermistor.InUnits | software/application.cpp:133-135 | the unit switch keeps a special value as it is and a number as a number; any other unit returns temp_K unchanged |
| Thermistor.UnknownSolverKeepsZero | software/application.cpp:95-131 | a solver other than "S-H" or "Beta" leaves temp_K = 0, so 'C' gives −273.15 |
| Thermistor.UnitDispatch | software/application.cpp:133-135 | 'C' gives temp_K − 273.15, 'F' the Fahrenheit conversion of the 'C' result, any other char temp_K unchanged |
| Thermistor.ConvertA2dToTemp | software/application.cpp:93-136 | the returned temperature is never −∞ |
| Thermistor.Defaults | software/application.cpp:93 | the defaults are units 'C' and solver "S-H" |
| Thermistor.InRangeSolved | software/application.cpp:109-131 | for 0 < a2d < 1023 a known solver yields the reciprocal of its curve's denominator at log(r_t / R_25) |
| Thermistor.PosInfExactly | software/application.cpp:109-135 | the result is +∞ exactly when a count in 1..1022 puts r_norm on the chosen curve's pole |
| Thermistor.InRangeIsNumber | software/application.cpp:109-131 | for 0 < a2d < 1023, given a logarithm that is increasing with ln(2^-12) ≥ −10, a known solver yields a finite, positive temp_K |
| Thermistor.NaNExactly | software/application.cpp:109-135 | the result is NaN exactly for a known solver with a count outside 0..1023, or Steinhart–Hart with a zero count |
| Thermistor.FullScaleIsAbsoluteZero | software/application.cpp:109-135 | an open thermistor (a2d = 1023) reads 0 K, i.e. −273.15 °C, with either solver |
| Thermistor.ZeroCount | software/application.cpp:109-131 | a zero count gives NaN with Steinhart–Hart and 0 K with Beta |
| Thermistor.ConvertToFahrenheit | src/application.cpp:127-130 | the Fahrenheit value maps back to the Celsius one under (f − 32)·5/9 |
| Thermistor.FahrenheitRoundTrip | src/application.cpp:127-130 | convert_to_fahrenheit is strictly increasing and inverted by (f − 32)·5/9 |
| Chamber.TruncateTowardZero | src/application.cpp:276 | the cast to int keeps the sign, does not grow the magnitude and is within 1 of the value |
| Chamber.Written | src/application.cpp:270-274 | the temperature update as a function: readings written into their channels' slots in channel order; the vector keeps its 8 slots |
| Chamber.WrittenOutside | src/application.cpp:270-274 | slots of unconfigured channels keep their value |
| Chamber.WrittenLast | src/application.cpp:270-274 | the last write wins: a channel that does not recur later in the list holds the reading written for it |
| Chamber.WrittenAt | src/application.cpp:270-274 | with distinct channels, each channel's slot holds that channel's reading |
| Chamber.WrittenKeepsZeroOutside | src/application.cpp:270-274 | the update keeps every unconfigured slot at its initial 0 |
| Chamber.Sum | src/application.cpp:276 | the accumulated sum of non-negative slots is non-negative |
| Chamber.LoopTemperature | src/application.cpp:276 | the loop temperature is within 1 of the slot sum over the channel count and no larger in magnitude |
| Chamber.SumUpdate | src/application.cpp:276 | replacing one slot changes the accumulated sum by the difference |
| Chamber.WrittenSum | src/application.cpp:270-276 | writing distinct channels whose slots hold 0 adds the readings' sum to the slot sum |
| Chamber.WrittenOverZeros | src/application.cpp:270-274 | with distinct channels and zeros elsewhere, the update does not depend on the channels' previous values |
| Chamber.TemperatureIsMean | src/application.cpp:276 | with distinct channels and zeros elsewhere, the loop temperature is the truncated mean of the readings |
| Chamber.Classify | src/application.cpp:284-295 | the mode chosen from the duty; ClassifyCases gives its three cases |
| Chamber.Actuate | src/application.cpp:280-295 | pin and PWM settings after an iteration; ActuateProperties gives what they are |
| Chamber.ClassifyCases | src/application.cpp:284-295 | exactly one mode: HEAT iff duty > 25, COOL iff duty < −25, REST iff −25 ≤ duty ≤ 25 |
| Chamber.ActuateProperties | src/application.cpp:280-295 | both PWMs agree; they are energised exactly when not REST, with a duty count above 250000; HEAT writes 1 and COOL writes 0 to pin 23; REST leaves the pin |
| Chamber.PwmDutyBounded | src/application.cpp:280-281 | with the PID output within its ±100 bounds, the duty count is within 0..1000000 |
| Chamber.SetpointDelta | src/application.cpp:198-217 | only a falling edge (level 0) of button 5 (+1) or button 16 (−1) changes the setpoint |
| Chamber.IncreaseDecreaseCancel | src/application.cpp:198-217 | an increase and a decrease edge, in either order, restore the setpoint |
| Chamber.EdgesDeltaCounts | src/application.cpp:198-217 | the net setpoint change is the number of increasing falling edges minus the number of decreasing ones |
| Chamber.DisplayDue | src/application.cpp:298 | the display condition `loop_count == 0 or loop_count % 10 == 0`; DisplayDueEveryTenth simplifies it |
| Chamber.DisplayDueEveryTenth | src/application.cpp:298 | the display condition holds exactly when loop_count is a multiple of 10 |
| Chamber.DisplayCountFromStart | src/application.cpp:298 | n iterations from start-up refresh the display ⌈n/10⌉ times |
| Chamber.Iterate | src/application.cpp:254-314 | one pass on the loop state: the slots keep their number and loop_count goes up by 1 |
| Chamber.Run | src/application.cpp:254-314 | the loop state after a script of passes keeps 8 slots |
| Chamber.RunCounters | src/application.cpp:254-314 | a run adds one to loop_count per pass, moves the setpoint by the script's net edge count, and only appends to the display log, once per due pass |
| Chamber.RunLastTemps | src/application.cpp:270-274 | after a non-empty run with distinct channels, each channel's slot holds the last pass's reading |
| Chamber.RunKeepsZeroOutside | src/application.cpp:270-274 | unconfigured slots stay 0 through a run |
| Chamber.SourceChannels | src/application.cpp:38 | the configured channels {0, 2} are in range, distinct and non-empty |
| Chamber.Controller.constructor | src/application.cpp:37-39 | start-up state: all 8 slots 0, setpoint 23, loop count 0, nothing displayed |
| Chamber.Controller.IncreaseSetpoint | src/application.cpp:198-205 | a level-0 edge raises temp_target by exactly 1, other levels leave it, nothing else changes |
| Chamber.Controller.DecreaseSetpoint | src/application.cpp:210-217 | a level-0 edge lowers temp_target by exactly 1, other levels leave it, nothing else changes |
| Chamber.Controller.Deliver | src/application.cpp:245-246 | an edge runs the callback registered for its pin, changing the setpoint by SetpointDelta |
| Chamber.Controller.UpdateTemps | src/application.cpp:270-274 | the vector becomes the old one with each channel's reading written in order; unconfigured slots stay 0 |
| Chamber.Controller.Step | src/application.cpp:254-314 | one iteration: the temperatures are updated; the loop temperature is the truncated slot sum over the channel count (the truncated mean for distinct channels); the duty is the PID's answer to (setpoint, temperature); mode, pin and PWMs follow the ±25 classification; the display is refreshed iff loop_count % 10 == 0; loop_count goes up by 1 |
| Chamber.Controller.RunIteration | src/application.cpp:198-217 | the button edges that arrive before a pass, then the pass: the new state is Iterate of the old one |
| Chamber.Controller.Shutdown | src/application.cpp:316-317 | both PWM channels are set to (0, 0) and nothing else changes |
| Chamber.Controller.RunUntilStop | src/application.cpp:254-317 | the final state is Run of the initial one with both PWMs off: loop_count has grown by the pass count, the setpoint has moved by the net edge count, the display log has been extended by one refresh per multiple of 10 passed, an empty run leaves pin and slots as they were, and with distinct channels each slot holds the last pass's reading |

## Left out

- The natural logarithm: it is a function parameter. InRangeIsNumber assumes of it only that it is increasing and that ln(2^-12) ≥ −10 (the true value is about −8.32).
- Float overflow: a curve denominator close to, but not exactly, 0 overflows `temp_K` to ±∞ in single precision. Over the reals only an exact 0 gives +∞.
- Floating-point rounding: the model computes over the reals. Only the special values (±∞, NaN) are kept. The constants are the decimal values written in the source, not their float or double roundings.
- The duty argument: the model keeps `10000·|duty|` as a real. Its conversion to the GPIO library's integer duty argument is not modelled, because that library's declaration is not part of this model.
- `get_temp` (src/application.cpp:89-122): it is the same chain as the default ("S-H", 'C') path of `convert_a2d_to_temp`. The control loop takes the channel temperatures as inputs, so a NaN temperature from a shorted thermistor cannot reach the loop in the model.
- The PID controller: `pid.h` is not part of this model. Each iteration's PID answer is an input function of (setpoint, measured). Its ±100 bounds appear only as the hypothesis of `PwmDutyBounded`.
- `dt_control` and the `main_ready`/`worker_ready` handshake: they are threads, a mutex, a condition variable and clock polling.
- The unsynchronised `temp_target` race: button edges are delivered sequentially, before the iteration they arrive in.
- The `stop` flag and the SIGINT handler: a run is given as the sequence of iterations before the flag is seen.
- The SPI device plumbing (`open`, `ioctl`, `close`, `exit(1)` on failure): a transfer always succeeds in the model.
- The OLED display, `cout` printing, the text layout of the refresh, the logo bitmap and `sleep_for`: these are output only. A refresh is recorded as the values it shows.
- The sampling loop of software/application.cpp `main` (lines 161-198): it only reads channel 0, prints and sleeps.
- software/GPIOClass: a sysfs file wrapper with no logic the loop uses.
- Chamber.Controller.Step: in REST the source first sets both PWMs to `10000·|duty|` and then to (0, 0) in the same iteration. The contract states only the final settings.
- Chamber.Controller.constructor: the PWM channels are taken to be off before the first iteration. The direction pin's level before its first write is a parameter.
- Chamber.Controller.IncreaseSetpoint: C `int` overflow of `temp_target` (and of `loop_count`) at 2^31 − 1 is not modelled. The counters are unbounded.
- Chamber.TruncateTowardZero: a value outside the range of `int` (undefined in C++) is not modelled.
