# LED sign animation engine

A Dafny model of the animation engine of the "twaeng pop" LED sign firmware. It covers two sibling variants:

- `twaeng_pop.c`: the 25-LED sign. A random-walking worm is composited over a dim letter background, and a fireworks show runs four rockets per burst.
- `pio/ws2812/ws2812.c`: the 32-LED test sign. It has its own topology, a halving decay, a variant of the worm's colour schedule, and pixel-stream test patterns.

The model is split by concern. Shared modules:

- `Bits`: C integer and byte arithmetic, the `COLOR_BRG` packing, and C's truncating `/`.
- `Palette`: the letter and worm colours.
- `Ramp`: `interp`.
- `Topology`: the compressed adjacency tables and `random_next_pos`.
- `WormSchedule`: the worm's speed schedule.

Modules per firmware file:

- `TwaengTopology`, `TwaengColors`, `TwaengSign` and `TwaengFireworks` for `twaeng_pop.c`.
- `Ws2812Topology`, `Ws2812Colors`, `Ws2812Strip` and `Ws2812Patterns` for `pio/ws2812/ws2812.c`.

Modelling choices:

- **Globals are fields of a class.** The firmware's globals (`frame_buffer`, `background`, `paint_buffer`, `pwm_led_fade`, `speed`, `worm0..worm3`) are fields of `TwaengSign.Sign` and `Ws2812Strip.Strip`. `struct rocket_t` is the class `TwaengFireworks.Rocket`.
- **Buffers are arrays.** The buffers are arrays updated in place by the same loops the firmware runs.
- **twaeng_pop.c sees its pixel buffers as bytes.** Each pixel is four little-endian bytes: B, R, G and the top byte. All of its byte loops (decay, background, composite) therefore work on `array<byte>`. The 32-LED sign works on `array<u32>`.
- **`put_pixel` is a sink.** It appends its argument to the `output` sequence of the sign.
- **`rand()` is an input.** It is a sequence of draws (`Topology.Draws`). Every operation that draws returns the draws it left unused.

## Model

| member | source | states |
|---|---|---|
| Bits.ColorBrg | twaeng_pop.c:17 | For byte channels the ORs of `(G << 16) \| (R << 8) \| B` never overlap, so the packed colour is G·65536 + R·256 + B; nothing is clamped |
| Bits.TruncDiv | twaeng_pop.c:174 | C's `/` on `int`: the magnitude of the quotient is the quotient of the magnitudes, with the sign of the exact quotient (rounding toward zero) |
| Palette.PaletteIsColorBrg | twaeng_pop.c:40-46 | Every palette constant (letter colours, `worm0_color`, `worm_tail_color`, the speed-band colours, WHITE) is `COLOR_BRG` of the channel values the firmware writes |
| Ramp.Interp | twaeng_pop.c:173-175 | `interp` gives YFROM at T = TFROM, YTO for every T ≥ TTO, and a value between YFROM and YTO for every T ≥ TFROM |
| Topology.CollectNeighbors | twaeng_pop.c:137-150 | The local `neighbors` buffer of `random_next_pos` is filled with the node's table list, or with its clamped linear neighbours at−1, at+1 when it has no entry; requires the list to fit the buffer |
| Topology.RandomNextPos | twaeng_pop.c:136-161 | The firmware loop computes exactly `NextPos` (the result and the draws left), and the result is an LED |
| Topology.PickIsMember | twaeng_pop.c:153-160 | The ten-try retry loop only ever answers with a member of the neighbour list |
| Topology.PickConsumes | twaeng_pop.c:153-159 | The retry loop consumes 1 to 10 draws. Every draw but the last one it used selected a rejected candidate. The last one selected the answer, or else all ten were rejected and the answer is `neighbors[0]` |
| Topology.NextPosIsNeighbor | twaeng_pop.c:136-161 | `random_next_pos` always answers with a neighbour of `at`, an LED of the sign |
| Topology.NextPosExclusion | twaeng_pop.c:151-160 | A node with a single neighbour returns it unconditionally, ignoring both exclusions and drawing nothing. Otherwise the answer avoids both excluded nodes, unless ten rejected draws forced `neighbors[0]`. At most ten draws are consumed |
| Topology.AcceptanceIsExclusion | twaeng_pop.c:157 | Under a well-formed table the `cand >= 0 && cand <= num_leds` test never rejects a candidate, so acceptance is exactly avoidance of the two exclusions |
| WormSchedule.NextSpeed | twaeng_pop.c:263 | The speed drops by one exactly when it is above 4 on a multiple of 60, never rises, and never goes below the floor 4 |
| WormSchedule.SpeedAfter | twaeng_pop.c:286-290 | After any number of ticks from a start at or above 4, the speed lies between 4 and the start |
| WormSchedule.SpeedAfterStep | twaeng_pop.c:263 | The closed form of the speed after i ticks advances exactly as `worm_moves`'s first statement does |
| WormSchedule.WalkEndsAtFloor | twaeng_pop.c:286-290 | The 4800 ticks of `worm()`, starting at speed 60, end at the floor speed 4 |
| TwaengTopology.TableWellFormed | twaeng_pop.c:78-134 | Every ref points at a count whose list lies inside `adjacency_nodes`. Every neighbour is an LED. No LED lists itself. Every list has at most five entries |
| TwaengTopology.Node14OverflowsBuffer | twaeng_pop.c:124-137 | LED 14 lists five neighbours, more than the four-entry local buffer holds |
| TwaengTopology.FallbackNeighbors | twaeng_pop.c:139-142 | Exactly LEDs 0, 3 and 24 have no entry. They get [1], [2, 4] and [23], their clamped linear neighbours |
| TwaengTopology.NoSelfHop | twaeng_pop.c:108-133 | The worm never hops onto the LED it is on |
| TwaengTopology.Node16AlwaysFifteen | twaeng_pop.c:126 | LED 16's single neighbour 15 is returned whatever the exclusions, without drawing |
| TwaengColors.MasksPartition | twaeng_pop.c:34-38 | The four letter masks partition the 25 LEDs. The shared O/P mask is empty. The 13 entries past the last LED are in no letter |
| TwaengColors.LetterColorByLetter | twaeng_pop.c:213-232 | The priority chain gives every LED its own letter's plain colour and never 0; the blended colours are never used on this sign |
| TwaengColors.LateColorsAreColorBrg | twaeng_pop.c:193-197 | The colours used from tick 4000 on are COLOR_BRG(255, 0, 255) for the tail and COLOR_BRG(0, 255, 0) for the head |
| TwaengColors.WormColorBySpeed | twaeng_pop.c:177-198 | Every colour of the schedule keeps its channels in their bytes, so the top byte is clear |
| TwaengColors.TailIndicesAgree | twaeng_pop.c:177-198 | `idx` only distinguishes the head (0) from the tail: every nonzero index gets the same colour |
| TwaengColors.RampEnds | twaeng_pop.c:185-197 | At speed ≤ 7 the ramps that start at 3500 make head and tail exchange their colours. The tail has not reached its late colour at 3999 and changes at 4000. From 4000 on the head is COLOR_BRG(0, 255, 0) |
| TwaengSign.PixelsOfBytes | twaeng_pop.c:241-246 | Reading pixels back from the little-endian bytes that store them gives the pixels; the byte view of a pixel buffer loses nothing |
| TwaengSign.SetPixelEffect | twaeng_pop.c:258-260 | `set_fbpixel` out of range changes nothing. In range, it changes exactly pixel `pixel`, to `color` |
| TwaengSign.Decay14 | twaeng_pop.c:254 | `(x * 14) >> 4` never increases a byte, strictly decreases a nonzero one, and keeps 0 at 0 |
| TwaengSign.Decay | twaeng_pop.c:253-255 | No byte of the decayed buffer is larger than before, and every nonzero byte is strictly smaller |
| TwaengSign.DecayTimesBound | twaeng_pop.c:252-257 | After k decays every byte is at most max(0, b − k) |
| TwaengSign.DecaysToBlack | twaeng_pop.c:252-257 | Enough decays with no repainting (255 of them) turn the whole buffer black |
| TwaengSign.Average | twaeng_pop.c:244-245 | The composite byte `(f + b) >> 1` lies between its two inputs |
| TwaengSign.Mix | twaeng_pop.c:242-246 | Every composite byte lies between the frame byte and the background byte |
| TwaengSign.MixSymmetricIdempotent | twaeng_pop.c:244-245 | The composite is symmetric in frame and background, and compositing a buffer with itself gives it back |
| TwaengSign.DimByte | twaeng_pop.c:237 | `max(1, b >> 3)` is at least 1 and at most max(1, b); it is 1 exactly for bytes below 16 |
| TwaengSign.Dim | twaeng_pop.c:235-238 | Every dimmed background byte is `max(1, b >> 3)` of its byte, so no background byte is 0 |
| TwaengSign.LetterImagePixels | twaeng_pop.c:213-232 | Pixel i of the painted letter image is the first-matching colour of the priority chain for LED i |
| TwaengSign.FadedByte | twaeng_pop.c:462-463 | Byte k of the colour `put_faded_pixel` sends is `(b * fade) >> 6` of byte k of the colour |
| TwaengSign.FadedBounds | twaeng_pop.c:461-465 | A fade in [0, 64] never brightens a byte. Fade 64 sends the colour unchanged and fade 0 sends black |
| TwaengSign.FadedFull | twaeng_pop.c:463 | Fading at level 64 sends the colour unchanged |
| TwaengSign.ScaleDown | twaeng_pop.c:463 | A fade in [0, 64] truncated into a byte never brightens it |
| TwaengSign.TrailPixels | twaeng_pop.c:276-280 | After the trail is painted, the head's LED shows the head colour even where a tail position shares it. The other tail LEDs show the tail colour, and every other pixel is unchanged |
| TwaengSign.PaintLettersToBuffer | twaeng_pop.c:213-232 | The whole buffer holds the letter image afterwards |
| TwaengSign.DimBuffer | twaeng_pop.c:234-238 | Every byte is replaced by `max(1, b >> 3)` of its old value |
| TwaengSign.Sign.constructor | twaeng_pop.c:200-211 | Power-up state: frame, background and paint buffers all zero, backlight level 80, speed 60, worm at LED 6 with an off-sign history (25) |
| TwaengSign.Sign.SetFbPixel | twaeng_pop.c:258-260 | The frame changes as `SetPixel` says: one guarded pixel store, four bytes |
| TwaengSign.Sign.DecayFrameBuffer | twaeng_pop.c:252-257 | Every frame byte, and `pwm_led_fade`, is replaced by `(x * 14) >> 4` |
| TwaengSign.Sign.InitBackground | twaeng_pop.c:233-239 | The background becomes the letter image dimmed to `max(1, b >> 3)` per byte |
| TwaengSign.Sign.PaintMixed | twaeng_pop.c:241-247 | The composite buffer holds the byte-wise average of frame and background, and exactly its 25 pixels are sent, in index order |
| TwaengSign.Sign.PaintFrameBuffer | twaeng_pop.c:249-251 | Exactly the 25 frame pixels are sent, in index order |
| TwaengSign.Sign.Send | twaeng_pop.c:246 | The `put_pixel` loop appends the buffer's pixels, in index order, to the output |
| TwaengSign.Sign.PutFadedPixel | twaeng_pop.c:461-465 | Exactly one pixel is sent: the colour with every byte faded |
| TwaengSign.Sign.Hop | twaeng_pop.c:268-274 | The history shifts by one and the new head is `random_next_pos(worm0, worm1, worm2)`; at most ten draws are used |
| TwaengSign.Sign.PaintTrail | twaeng_pop.c:276-280 | The frame becomes the trail painted over it: the three tail positions, then the head |
| TwaengSign.Sign.WormMoves | twaeng_pop.c:262-283 | One worm tick follows the speed schedule. The history shifts exactly on hop ticks. The frame is decayed on every sixth tick, then painted with the trail, head last. The backlight decays along with it. The composite is recomputed and sent |
| TwaengSign.Sign.Worm | twaeng_pop.c:285-291 | The 4800-tick walk ends at the floor speed, having sent one 25-pixel frame per tick |
| TwaengFireworks.Rand | twaeng_pop.c:314 | One `rand()` takes the next draw |
| TwaengFireworks.LaunchColorEarly | twaeng_pop.c:310 | During its first 1200 ticks the climbing colour `COLOR_BRG(25 << e, 5 << e, 0)` keeps both channels in their bytes and doubles every 300 ticks. Before tick 300 it is the reset colour |
| TwaengFireworks.AdvancesStep | twaeng_pop.c:438-443 | The count of step ticks a rocket has acted on rises by one exactly on a multiple of 140 at or after its offset |
| TwaengFireworks.RunIsLongEnough | twaeng_pop.c:438-443 | A 2200-tick run gives every rocket launched by tick 1400 at least six advances, enough for any path and its burst |
| TwaengFireworks.ThreeLedPathSchedule | twaeng_pop.c:306-320 | A rocket with a three-LED path and offset 0 has not moved at tick 139, sits on its last LED still travelling at tick 281, and bursts at tick 420 |
| TwaengFireworks.SelectFizzle | twaeng_pop.c:313-317 | The fizzle selection keeps four pick slots and consumes only draws it was given |
| TwaengFireworks.SelectFizzleInLetter | twaeng_pop.c:313-317 | The selection writes only slots 0 and 1, each with an LED of the letter. It leaves the other slots alone and consumes a prefix of the draws. Unless the draws run out, both slots end up holding LEDs of the letter |
| TwaengFireworks.FizzlePicksMayRepeat | twaeng_pop.c:313-316 | Both picks can be the same LED: nothing makes them distinct |
| TwaengFireworks.SparkleBelowWhite | twaeng_pop.c:328 | A sparkle colour `COLOR_BRG(rand()%255, rand()%130, rand()%80)` is below WHITE in every channel, has a clear top byte, and uses up to three draws |
| TwaengFireworks.SparklesTouchPicks | twaeng_pop.c:327-329 | The sparkles change no pixel other than the two picks, and use up to six draws |
| TwaengFireworks.PaintLetterPixels | twaeng_pop.c:332-333 | After the letter loop, exactly the LEDs of the letter hold its colour and every other pixel is unchanged |
| TwaengFireworks.Rocket.constructor | twaeng_pop.c:337-347 | A statically initialised rocket: at the start of its path, state 0, launch colour COLOR_BRG(25, 5, 0), fizzle set, zeroed picks |
| TwaengFireworks.Rocket.Reset | twaeng_pop.c:431-436 | State 0, position 0, launch colour, the run's fizzle mode; the picks are kept |
| TwaengFireworks.Rocket.Step | twaeng_pop.c:306-321 | Before its offset nothing happens. On the path it moves one LED and takes the climbing colour. At the path's end a fizzle rocket sets state 1 and picks anew, filling both fizzle slots with LEDs of its letter unless the draws run out; a plain rocket moves state 0 to 1 and leaves any other state alone |
| TwaengFireworks.Rocket.Paint | twaeng_pop.c:322-336 | In state 0 only `path[pos_idx]` is set, to the rocket colour. A fizzling rocket raises the backlight and sparkles its two picks. A burst rocket below 200 raises the backlight, lights exactly its letter and counts up. From 200 on it paints nothing |
| TwaengFireworks.StepAll | twaeng_pop.c:441-444 | Stepping the four rockets moves each from its schedule at tick t−1 to its schedule at t |
| TwaengFireworks.PaintAll | twaeng_pop.c:445-446 | Painting keeps every rocket on its schedule and sends nothing |
| TwaengFireworks.ResetAll | twaeng_pop.c:431-436 | After the reset every rocket is at the start of its schedule, in the run's fizzle mode |
| TwaengFireworks.Tick | twaeng_pop.c:439-448 | One tick keeps every rocket on its schedule and sends one 25-pixel frame |
| TwaengFireworks.FireworksRun | twaeng_pop.c:429-452 | After a 2200-tick run every rocket launched by tick 1400 has reached its last LED and burst, and 2200 frames have been sent |
| TwaengFireworks.PopRockets | twaeng_pop.c:337-381 | `r1` to `r4` form a fleet of four distinct rockets. Each has the source's launch offset (0, 280, 560, 700), letter colour, letter mask, path length and path |
| TwaengFireworks.WhiteRockets | twaeng_pop.c:383-427 | `r5` to `r8` form a fleet of four distinct rockets. Each has the source's launch offset (0, 0, 210, 210), letter colour (white, or the `!` colour for `r8`), letter mask, path length and path |
| TwaengFireworks.Fireworks | twaeng_pop.c:453-459 | After the five runs (plain, fizzling, plain, white, plain) every rocket is in plain mode, every pop rocket has burst at the end of its path, and 5 × 2200 frames have been sent |
| Ws2812Topology.TableWellFormed | pio/ws2812/ws2812.c:126-157 | Every list lies inside `adjacency_nodes`, every neighbour is one of the 32 LEDs, and every count is at most 4. The only LED that lists itself is 22 |
| Ws2812Topology.SelfLoopAt22 | pio/ws2812/ws2812.c:150 | A draw selecting LED 22's third slot is accepted when 22 is not excluded, so the worm hops from 22 onto 22 |
| Ws2812Topology.Node19AlwaysTwenty | pio/ws2812/ws2812.c:148 | LED 19's single neighbour 20 is returned whatever the exclusions, without drawing |
| Ws2812Topology.NoSelfHopExcept22 | pio/ws2812/ws2812.c:136-157 | Away from LED 22 the worm never hops onto the LED it is on |
| Ws2812Colors.LedsCovered | pio/ws2812/ws2812.c:84-88 | Every one of the 32 LEDs lies in some letter mask |
| Ws2812Colors.LetterColorByLed | pio/ws2812/ws2812.c:106-123 | The letters overlap. LED 9 gets the P/O blend, LED 15 the O/P blend, and LEDs 25 and 26 the P/! blend. Every other LED gets its own letter's colour |
| Ws2812Colors.RampColorsAreColorBrg | pio/ws2812/ws2812.c:213-220 | The ramps' start and end colours are COLOR_BRG(200, 130, 80), COLOR_BRG(40, 200, 200), COLOR_BRG(5, 0, 0) and COLOR_BRG(50, 0, 0) |
| Ws2812Colors.WormColorBySpeed | pio/ws2812/ws2812.c:200-221 | Every colour of this variant's schedule keeps its channels in their bytes, so the top byte is clear |
| Ws2812Colors.TailIndicesAgree | pio/ws2812/ws2812.c:200-221 | Every nonzero index gets the same tail colour |
| Ws2812Colors.RampStart | pio/ws2812/ws2812.c:208-215 | At speed ≤ 7 both ramps start at 3500 from colours other than those used before, so head and tail jump at 3500 |
| Ws2812Colors.RampMeetsFade | pio/ws2812/ws2812.c:211-220 | At 4000 the fade takes over from the value the ramps of [3500, 4000) reach at 4000 |
| Ws2812Colors.FadeEnds | pio/ws2812/ws2812.c:216-220 | From 4000 on the fastest worm is red only. From 4500 on the head is COLOR_BRG(50, 0, 0) and the tail COLOR_BRG(5, 0, 0) |
| Ws2812Strip.DecayPixel | pio/ws2812/ws2812.c:235-241 | A zero pixel stays zero. A nonzero pixel has each of its three channels halved and its top byte cleared, so no channel increases |
| Ws2812Strip.DecayPixelTimesBytes | pio/ws2812/ws2812.c:233-243 | After k ≥ 1 decays each channel is its value divided by 2^k and the top byte is clear |
| Ws2812Strip.PixelDecaysToBlack | pio/ws2812/ws2812.c:233-243 | Eight decays turn any pixel black |
| Ws2812Strip.DecayTimes | pio/ws2812/ws2812.c:234-242 | k decays of the frame decay every pixel k times, independently |
| Ws2812Strip.FrameDecaysToBlack | pio/ws2812/ws2812.c:251-252 | Eight decays (48 worm ticks without repainting) clear the whole frame |
| Ws2812Strip.SetPixel | pio/ws2812/ws2812.c:244-246 | `set_fbpixel` out of range changes nothing. In range, it changes exactly slot `pixel`, to `color` |
| Ws2812Strip.TrailPixels | pio/ws2812/ws2812.c:262-266 | The head's LED shows the head colour even where a tail position shares it. The other tail LEDs show the tail colour, and nothing else changes |
| Ws2812Strip.Strip.constructor | pio/ws2812/ws2812.c:223-228 | Power-up state: zeroed frame, speed 60, worm at LED 6 with an off-sign history (32) |
| Ws2812Strip.Strip.SetFbPixel | pio/ws2812/ws2812.c:244-246 | The frame changes as `SetPixel` says |
| Ws2812Strip.Strip.DecayFrameBuffer | pio/ws2812/ws2812.c:233-243 | Every pixel is replaced by its decay |
| Ws2812Strip.Strip.PaintFrameBuffer | pio/ws2812/ws2812.c:230-232 | Exactly the 32 frame pixels are sent, in index order |
| Ws2812Strip.Strip.Hop | pio/ws2812/ws2812.c:254-260 | The history shifts by one and the new head is `random_next_pos(worm0, worm1, worm2)`, through the firmware's four-entry buffer, which every list fits |
| Ws2812Strip.Strip.PaintTrail | pio/ws2812/ws2812.c:262-266 | The frame becomes the trail painted over it: the three tail positions, then the head |
| Ws2812Strip.Strip.WormMoves | pio/ws2812/ws2812.c:248-269 | One worm tick follows the speed schedule and shifts the history exactly on hop ticks. The frame is decayed on every sixth tick and painted head last, so `frame_buffer[worm0]` holds the head colour. Exactly the 32 frame pixels are then sent |
| Ws2812Patterns.SnakeColorsArePacked | pio/ws2812/ws2812.c:21-26 | `urgb_u32` packs red, green and blue the same way `COLOR_BRG` does |
| Ws2812Patterns.WrapKeepsPhase | pio/ws2812/ws2812.c:30 | The `uint` wrap-around of `i + (t >> 1)` never changes its value mod 64 |
| Ws2812Patterns.PatternSnakes | pio/ws2812/ws2812.c:28-40 | Exactly `len` pixels are sent. Pixel i is red, green, blue or black as x = (i + t/2) mod 64 lies in [0, 10), [15, 25), [30, 40) or elsewhere |
| Ws2812Patterns.SnakesScroll | pio/ws2812/ws2812.c:28-40 | The snakes move one pixel toward the start of the string every two ticks, and the pattern repeats every 128 ticks |
| Ws2812Patterns.GreyBytes | pio/ws2812/ws2812.c:60 | `v * 0x10101` for v < 32 puts v on each of the three channels and leaves the top byte clear |
| Ws2812Patterns.PatternGreys | pio/ws2812/ws2812.c:56-63 | Exactly `len` pixels are sent, and pixel i is ((t mod 32 + i) mod 32) · 0x10101 |
| Ws2812Patterns.GreysDim | pio/ws2812/ws2812.c:57-61 | Every grey pixel carries the same level, below 32, on all three channels, with a clear top byte |
| Ws2812Patterns.GreysScroll | pio/ws2812/ws2812.c:58-61 | The levels climb by one along the string and by one per tick |
| Ws2812Patterns.GreysPeriod | pio/ws2812/ws2812.c:58 | The grey pattern repeats every 32 ticks |
| Ws2812Patterns.ShowLetter | pio/ws2812/ws2812.c:98-105 | Exactly 32 pixels are sent. Pixel i is `color` if LED i is in the letter, black otherwise |
| Ws2812Patterns.LetterFramesCoverSign | pio/ws2812/ws2812.c:84-88 | The four single-letter frames between them light every LED, and LED 15 is lit by both the O and the second P |
| Ws2812Patterns.ShowAllSendsEveryLed | pio/ws2812/ws2812.c:106-123 | Since every LED matches some case, `show_all` sends exactly one pixel per LED, each the colour of its first matching case |
| Ws2812Patterns.ShowAll | pio/ws2812/ws2812.c:106-123 | The loop sends exactly the 32 colours of the priority chain, in LED order |

## Left out

- **Hardware.** `put_pixel`'s `pio_sm_put_blocking(pio0, 0, pixel_grb << 8u)` is not modelled, nor the PIO program and its initialisation, `stdio`, the system clock and `sleep_ms`. The output sequence holds the values passed to `put_pixel`.
- **`rand()`.** The PRNG, its distribution and any "with high probability" behaviour are left out. Draws are an input.
- **The PWM backlight.** `init_pwm`, the IRQ handler `on_pwm_wrap` (twaeng_pop.c:523-552) and its concurrent reads of `pwm_led_fade` are left out. `pwm_led_fade` is a plain integer field that decay and `rocket_paint` update.
- **`fade_up_letters` (twaeng_pop.c:469-494).** It is not modelled: for t < 8 it computes `rand() % (t >> 3)` with a zero divisor (twaeng_pop.c:472-475), which is undefined behaviour. Only `put_faded_pixel`, which it calls, is modelled.
- **Thin driver loops.** `glowing_letters` (twaeng_pop.c:496-519), both `main` phase sequences (including the ws2812 sign's 5000-tick worm and its letter parade), the empty `story()`, and `pattern_table` have no logic beyond the operations modelled.
- **Random-only patterns.** `pattern_random` and `pattern_sparkle` (pio/ws2812/ws2812.c:42-54) send nothing but raw random values.
- **twaeng's own `show_letter` and `show_all`.** twaeng_pop.c:48-75 is never called in that file, so it is not modelled. It is not the same as the ws2812 sign's versions, which are modelled: it sends 25 pixels per frame, and its `show_all` sends an off pixel for an LED in no letter (twaeng_pop.c:72-73), where the ws2812 version sends nothing for that LED.
- **Integer widths.** Tick counts are `nat`. No tick count reaches a wrap-around: `worm()` stops at 4800, `fireworks_run` at 2200. The `uint` sum in `pattern_snakes` is wrapped explicitly, and the rocket colour is stored modulo 2^32.
- TwaengFireworks.Rand: an exhausted draw sequence reads 0. The firmware's `rand()` never runs out.
- TwaengFireworks.SelectFizzle: the selection stops when the draws run out. The firmware loops until it has two picks.
- TwaengFireworks.Rocket.Paint: the sparkle colours are stated only through `SparkleBelowWhite`, i.e. their `%` bounds, since they are random.
- TwaengFireworks.Tick: states only that the fleet stays on schedule and that one frame is sent, not the frame's contents. `Sign.WormMoves`, `Rocket.Step` and `Rocket.Paint` state the contents of one step.
- TwaengFireworks.FireworksRun: states the rockets' final positions and states and the number of pixels sent, not every frame.
- TwaengFireworks.Fireworks: the same as `FireworksRun`, over the five runs.
- TwaengFireworks.SparkleColor: C leaves unspecified the order in which the three `rand()` calls of one sparkle colour are evaluated; the model draws red, then green, then blue. The lemmas about sparkles hold for every draw sequence, so they do not depend on that choice.
- TwaengFireworks.PopRockets: does not state that the rockets are freshly allocated.
- TwaengFireworks.WhiteRockets: does not state that the rockets are freshly allocated.
- TwaengSign.Sign.Worm: states the final speed and the number of pixels sent, not the frames of every tick; those are stated per tick by `WormMoves`.
- TwaengSign.Sign.Hop: uses a five-entry neighbour buffer rather than the firmware's four entries (see Findings).
- TwaengColors.WormColorBySpeed: its contract states only the 24-bit bound. The values of the schedule are stated by `TailIndicesAgree`, `RampEnds` and `LateColorsAreColorBrg`.
- Ws2812Colors.WormColorBySpeed: its contract states only the 24-bit bound. The values are stated by `RampStart`, `RampMeetsFade` and `FadeEnds`.
- Topology.RandomNextPos: requires at least ten draws, the most the retry loop can use. The firmware's `rand()` is unbounded.

### Where the code and the design description differ

The model follows the code in each case.

- The design description says the walker never steps onto its current position. On the 32-LED sign, LED 22 lists itself (`Ws2812Topology.SelfLoopAt22`).
- It says a fizzling rocket picks two distinct LEDs. The selection loop does not keep them apart (`TwaengFireworks.FizzlePicksMayRepeat`).
- It describes a three-LED path with offset 0 as burst ("glowing") at tick 281. In the code the burst comes one advance after the rocket reaches its last LED, at tick 420 (`TwaengFireworks.ThreeLedPathSchedule`).
- It describes separate fizzling and glowing phases. A fizzling rocket sets state 1 and never counts it up; it re-picks on every later step and sparkles on every paint until the run ends.

## Findings

| source | as written | input that shows it | evidently intended | confidence | as-written member | corrected member |
|---|---|---|---|---|---|---|
| twaeng_pop.c:124-137 | `random_next_pos` copies a node's whole neighbour list into `uint8_t neighbors[4]`, but LED 14's entry lists five neighbours | `random_next_pos(14, e1, e2)`: the fifth neighbour, 17, is written to `neighbors[4]`, one past the end of the buffer | a buffer that holds every list of the table: five entries, the largest degree of the sign | high, not executed | TwaengTopology.Node14OverflowsBuffer | TwaengSign.Sign.Hop |
