# plstim stimulus presentation core, in Dafny

plstim is a psychophysics toolkit. A session shows a subject short animated
stimuli on an OpenGL ES surface and records one answer per trial in an HDF5
file. This project models the sequential core behind that:

- **Frame timing** (`FrameTiming`, lib/qexperiment.cc). The swap coefficient
  `round(refresh / wanted)`, its 1 % tolerance rule and the number of frames
  per trial. Also, for an aperture, the power-of-two texture side.
- **Session loop** (`Lorenceau.LorenceauExperiment.RunSession`). Trials run
  in order and the loop stops at the first one that fails. It is a method of
  the Lorenceau experiment class, the only `run_trial` in the model.
- **Resolution message** (`Messages`). `update_converters`, `add_message` and
  `remove_message` drive a three-state message (none, warning, error) that
  sits in the window's list of messages.
- **Lorenceau trial** (`Condition`, `LineGrid`, `Lorenceau`,
  lorenceau-experiment.cc):
  - the condition bitfield and the motion direction;
  - the line-grid origins of every frame;
  - the phase sequence of `run_trial` with its four clock readings;
  - the result dataset of `ntrials` slots, written at `current_trial`;
  - the refusal to overwrite a result file;
  - the `--geometry` argument of `main`.
- **egl-anim player** (`EglAnim`, egl-anim.cc): geometry parsing, the rule
  that all textures share one size, centring, projection and texture
  coordinates, the presentation loop and the two key waits.
- **Key waits** (`KeyEvents`). `wait_any_key` and `wait_for_key` read a
  finite X event queue from a position. Where the source blocks, the model
  reports that the queue ran out.

The experiment's state is a class. Its fields are the condition, the clock,
the read position in the event queue and the pictures swapped onto the
screen. Its arrays are the frame textures and the result dataset. The session
is proved against a counting function, `CompletedTrials`, which reads the
queue one event at a time. `RunSession` succeeds exactly when the queue lets
all `ntrials` trials complete. `currentTrial` ends at the number that did.
The trials' random draws, delays and uploads are a parameter `env`, one per
trial. Slot k holds the record of trial k run with `env(k)`: its draws, its
delays, the clock once trials 0 .. k-1 are over (`StartClock`) and the k-th
answer key. The answer keys are those of `SessionKeys`, which reads the queue
trial by trial: a start press, then an Up or Down press. Every written slot holds a record whose phases are in time order,
and each trial ends before the next one starts. Slots from `currentTrial` on
are unchanged.

Collaborators are inputs:

- the refresh rate, random draws, the trigonometric results behind `bx, by,
  dx, dy`, and the time between clock readings;
- which texture uploads fail, which images decode, and the existing files;
- what `uname` reports, and the event queue.

Floating point is modelled over the reals. C's conversions from float to int
(truncation toward zero), `nearbyintf` (ties to even), `fmod` (the sign of
the dividend) and 32-bit unsigned subtraction are written out.

The refresh tolerance is one-sided. Its error message
(lib/qexperiment.cc:138 and :158) speaks of setting the monitor frequency
"at 1% of the desired frequency", which reads as a bound on either side.
The test before it (lib/qexperiment.cc:137 and :157) compares the signed
relative error with 0.01, so only a rate that is too fast is refused. The
model follows the test; `FrameTiming.SlowRateNeverRejected` and
`FrameTiming.FiftyHertzForThirtyAccepted` show the consequence.

## Model

| member | source | states |
|---|---|---|
| FrameTiming.RoundHalfEven | lib/qexperiment.cc:156 | the result is within 1/2 of x, and even when x is halfway between two integers |
| FrameTiming.RoundHalfEvenUnique | lib/qexperiment.cc:162 | any integer with those two properties is the rounded value |
| FrameTiming.RoundHalfEvenOfInt | lib/qexperiment.cc:162 | rounding an integer gives it back |
| FrameTiming.RejectedIffTooFast | lib/qexperiment.cc:157-160 | the session is refused exactly when the achieved rate refresh/coef exceeds the wanted rate by more than 1 % |
| FrameTiming.ComputeTiming | lib/qexperiment.cc:156-163 | Ok exactly when the rate is not too fast, else FrequencyMismatch; on Ok, swap interval = coef and nframes is (refresh/coef)·(dur_ms/1000) rounded half to even, so within 1/2 of it |
| FrameTiming.RandRTiming | lib/qexperiment.cc:124-143 | a nonzero configured rate that differs from the measured one is RefreshMismatch; a zero or matching one gives ComputeTiming of the measured rate; on Ok the measured rate is stored, coef ≥ 1 and the tolerance holds |
| FrameTiming.SlowRateNeverRejected | lib/qexperiment.cc:157 | a rate at or below the target is always accepted, however far below |
| FrameTiming.FiftyHertzForThirtyAccepted | lib/qexperiment.cc:156-160 | 50 Hz for 30 Hz gives coef 2 (25 Hz, 16.7 % slow) and is accepted |
| FrameTiming.SixtyHertzScenario | lib/qexperiment.cc:156-163 | 60 Hz, 30 Hz wanted, 332 ms give swap interval 2 and 10 frames |
| FrameTiming.FloorLog2 | lib/qexperiment.cc:353 | `(int) log2f(n)`: 2^k ≤ n < 2^(k+1) |
| FrameTiming.TextureSize | lib/qexperiment.cc:353-358 | the texture side is a power of two with stim ≤ tex < 2·stim |
| FrameTiming.TextureSizeIsLeast | lib/qexperiment.cc:353-358 | no power of two that holds the stimulus is smaller than the texture side |
| KeyEvents.NextKeyPress | lib/qexperiment.cc:189-197 | the index found is at or after the start and is a key press |
| KeyEvents.NextKeyPressIsFirst | lib/qexperiment.cc:192-196 | no key press is skipped, and None means the rest of the queue has no key press |
| KeyEvents.NextAccepted | lib/qexperiment.cc:214-224 | the index found is at or after the start and is a press of an accepted key |
| KeyEvents.NextAcceptedIsFirst | lib/qexperiment.cc:214-224 | every event skipped is not an accepted key press, and None means none follows |
| KeyEvents.WaitAnyKey | lib/qexperiment.cc:187-201 | returns true exactly when a key press follows, and stops right after the first; otherwise reads the whole queue |
| KeyEvents.WaitForKey | lib/qexperiment.cc:204-228 | returns true exactly when an accepted press follows, stops right after the first, and returns its key, which is accepted |
| Messages.Message.constructor | lib/qexperiment.cc:641-644 | the message has the given type and text |
| Messages.RemoveFirst | lib/qexperiment.cc:713 | `removeOne`: one occurrence fewer when present, unchanged otherwise, other elements' counts kept |
| Messages.NextMessage | lib/qexperiment.cc:657-686 | with no message: error iff err > 0.1, warning iff 0.01 < err ≤ 0.1. With a message: it goes away iff err < 0.01, an error is lowered below 0.1, a warning is never raised |
| Messages.NextMessageIdempotent | lib/qexperiment.cc:657-686 | a second update with the same err changes nothing |
| Messages.MessageBoard.constructor | lib/qexperiment.cc:495 | no message and an empty list |
| Messages.MessageBoard.AddMessage | lib/qexperiment.cc:692-695 | appends exactly the message |
| Messages.MessageBoard.RemoveMessage | lib/qexperiment.cc:711-713 | removes its first occurrence |
| Messages.MessageBoard.UpdateConverters | lib/qexperiment.cc:646-689 | the message follows NextMessage. A created message is fresh, carries the label and is appended; a removed one leaves the list. A lowered one is moved to the end. The shown message stays listed exactly once |
| Geometry.DigitRun | egl-anim.cc:207-208 | the leading run of digits, ending at a non-digit or at the end |
| Geometry.NatToStringValue | egl-anim.cc:207 | the decimal notation of n reads back as n |
| Geometry.DigitRunStopsAt | egl-anim.cc:207 | the decimal digit run of a formatted number ends at the 'x' |
| Geometry.LeadingNumberOfFormatted | egl-anim.cc:207-208 | a number followed by a non-digit is read back exactly |
| Geometry.Find | egl-anim.cc:202 | `find('x')`: None iff there is no 'x', else the first index holding it |
| Geometry.ParseDimensions | egl-anim.cc:201-213 | NoSeparator iff there is no 'x'. Otherwise the sides are read before and after the first 'x', with ZeroDimension iff one is 0 |
| Geometry.ParseFormatted | egl-anim.cc:201-213 | formatting two positive sides as WIDTHxHEIGHT and parsing gives them back |
| Condition.LineLuminance | lorenceau-experiment.cc:162-164 | every index the distribution can draw gives a luminance in {30, 60, 90, 120, 150}, namely 30·(i+1) |
| Condition.EncodeConfig | lorenceau-experiment.cc:387-390 | config < 8; bit 0 iff cw, bit 1 iff control, bit 2 iff up |
| Condition.DecodeEncode | lorenceau-experiment.cc:50-52 | decoding the config byte recovers the three factors |
| Condition.EncodeDecode | lorenceau-experiment.cc:50-52 | every byte below 8 is the code of exactly one condition |
| Condition.FMod | lorenceau-experiment.cc:436-440 | C `fmod`: the remainder is below the divisor in size, has the dividend's sign and completes the truncated quotient |
| Condition.Direction | lorenceau-experiment.cc:431-440 | the direction lies strictly between -360 and 360, is congruent to the unreduced sum modulo 360 and has its sign |
| Condition.DirectionTable | lorenceau-experiment.cc:431-440 | the directions of all eight conditions |
| Condition.ControlIsPerpendicular | lorenceau-experiment.cc:437 | in a control trial the lines move at 90° to their orientation |
| Condition.DownOpposesUp | lorenceau-experiment.cc:438 | a down trial moves opposite to the up trial of the same condition |
| LineGrid.Trunc | lorenceau-experiment.cc:464 | conversion to `int` truncates toward zero |
| LineGrid.AdvanceByStep | lorenceau-experiment.cc:464 | `x += sx+spacing` with a step ≥ 1 moves by at least one pixel: by ⌊step⌋ at or right of zero, by ⌈step⌉ left of it |
| LineGrid.StepsProperties | lorenceau-experiment.cc:464-465 | the loop's values start at the start value and stay below the bound. Each follows from the one before by one step. One more step leaves the range, and the loop runs iff start < bound |
| LineGrid.StepsIncreasing | lorenceau-experiment.cc:464-465 | the loop's values strictly increase |
| LineGrid.ProductMember | lorenceau-experiment.cc:464-467 | every origin drawn pairs an x of the outer loop with a y of the inner loop |
| LineGrid.OriginsInBounds | lorenceau-experiment.cc:464-467 | every origin satisfies x < tex_width+sx+spacing and y < tex_height+sy+spacing |
| LineGrid.ColumnOrigins | lorenceau-experiment.cc:465-467 | the inner loop emits (x, y) for each value the y loop takes, in order |
| LineGrid.GridOrigins | lorenceau-experiment.cc:464-469 | the nested loops emit, for each x in order, the column of every y |
| LineGrid.LineOrigins | lorenceau-experiment.cc:464-469 | frame i starts at x = offx+i·dx-(sx+spacing) truncated toward zero, y = offy+i·dy, emits the grid of the two loops, and every origin is within the bounds |
| EglAnim.LoadFrames | egl-anim.cc:311-329 | Ok iff every image loads with image 0's size, returning that size. Otherwise the error names the first image that failed to load or differs in size |
| EglAnim.OffsetAsWrittenWhenFits | egl-anim.cc:378-379 | the unsigned offset equals the centring offset when the texture fits |
| EglAnim.OffsetWrapsForLargeTexture | egl-anim.cc:378-379 | a 1024-px texture in an 800-px window: centring needs -112, the unsigned subtraction gives 2147483536 |
| EglAnim.QuadCentred | egl-anim.cc:474-483 | the quad's left and right (top and bottom) margins are equal, so its centre is the window's |
| EglAnim.ProjectCorners | egl-anim.cc:392-396 | (0,0) maps to (-1,1) and (width,height) to (1,-1) |
| EglAnim.ProjectRoundTrip | egl-anim.cc:392-401 | the projection x ↦ 2x/w-1, y ↦ 1-2y/h is a bijection between pixels and device coordinates |
| EglAnim.QuadTexCoords | egl-anim.cc:403-404 | the six quad vertices map onto the corners of the unit texture square |
| EglAnim.PresentFrames | egl-anim.cc:539-551 | frames are bound in order `tframes[0..n-1]`, one swap each, and a swap-interval request per frame when it is not 1 |
| EglAnim.WaitAnswer | egl-anim.cc:570-591 | ends at the first Up or Down press, skipping everything else; answer_up iff that key is Up |
| EglAnim.Play | egl-anim.cc:201-591 | a bad geometry ends the run with ParseDimensions' error. A bad image ends it with the first image that fails to load or differs in size. NoStart iff there is no key press; NoAnswer iff no Up/Down press follows it; Answered iff one does. An answer comes after n+1 swaps and is Up iff that press is Up |
| Lorenceau.ToTimespec | lorenceau-experiment.cc:354-355 | a clock reading has 0 ≤ nsec < 10^9 and sec·10^9 + nsec is the clock value |
| Lorenceau.ToTimespecMonotone | lorenceau-experiment.cc:40-42 | readings compare chronologically exactly as the clock values they come from |
| Lorenceau.TrialRecord | lorenceau-experiment.cc:386-401 | the phases are in time order after the trial's start and the answer stamp is the end clock. Config < 8 and decodes to the draws. response = 1 iff the key is Up. Luminance is in the table, length 2.7, presentation time 332 |
| Lorenceau.TrialKeyPresses | lorenceau-experiment.cc:353-381 | a trial's keys end at an Up or Down press after the start position |
| Lorenceau.TrialKeysIff | lorenceau-experiment.cc:353-381 | a trial gets its answer iff some key press is later followed by an Up or Down press |
| Lorenceau.ParseStimulusGeometry | lorenceau-experiment.cc:556-574 | empty means the setup's resolution in full screen. Without 'x' it is NoSeparator. Otherwise it is accepted exactly when ParseDimensions accepts, with ParseDimensions' error otherwise; the sides are read around the first 'x', are at least 1 and open a window |
| Lorenceau.ParseStimulusFormatted | lorenceau-experiment.cc:556-574 | WIDTHxHEIGHT with positive sides opens a window of that size |
| Lorenceau.CreateResultFile | lorenceau-experiment.cc:268-323 | an existing path gives AlreadyExists with nothing created. Otherwise the file exists afterwards, UnameFailed iff uname fails, and the dataset has ntrials slots and the five attributes |
| Lorenceau.NoOverwrite | lorenceau-experiment.cc:269-272 | creating a second time at the same path is refused |
| Lorenceau.UploadedFrom | lorenceau-experiment.cc:455-494 | the frames before the first failing upload all upload |
| Lorenceau.CompletedTrials | lib/qexperiment.cc:177-184 | at most n trials complete |
| Lorenceau.CompletedAtStart | lib/qexperiment.cc:189-197 | the start wait skips to just after the first key press; with none, no trial completes |
| Lorenceau.CompletedAtAnswer | lib/qexperiment.cc:214-224 | the answer wait skips to just after the first Up or Down press, which completes a trial |
| Lorenceau.CompletedTrialsStep | lorenceau-experiment.cc:353-381 | a trial completes iff its key presses are in the queue, and counting resumes after its answer |
| Lorenceau.LorenceauExperiment.constructor | lorenceau-experiment.cc:152-297 | 100 trials, an all-empty dataset of 100 slots, textures sized by TextureSize, nframes and swap interval from the timing |
| Lorenceau.LorenceauExperiment.Grid | lorenceau-experiment.cc:420-435 | the aperture is centred in the texture (offx, offy are (tex - aperture)/2 truncated), the extents are abs(bx), abs(by), dx, dy, spacing and the texture size are carried over, and both steps are at least one pixel |
| Lorenceau.LorenceauExperiment.MakeFrames | lorenceau-experiment.cc:417-499 | true iff no upload fails. Frames before the first failure hold their grid origins; the rest are unchanged |
| Lorenceau.LorenceauExperiment.ShowFrames | lib/qexperiment.cc:286-322 | every frame is swapped onto the screen in order, with a swap-interval request per frame when it is not 1 |
| Lorenceau.LorenceauExperiment.ReadClock | lorenceau-experiment.cc:354-355 | the clock moves forward by the elapsed time and the reading is that clock value |
| Lorenceau.LorenceauExperiment.AskAnswer | lorenceau-experiment.cc:369-384 | the question frame is shown. Success iff an Up/Down press follows; the queue stands after it and that is the key. The clock moves forward |
| Lorenceau.LorenceauExperiment.PresentTrial | lorenceau-experiment.cc:353-384 | success iff the trial's key presses are in the queue. The four readings are the clock at the four phases. The screen shows fixation, blank, the frames, the question |
| Lorenceau.LorenceauExperiment.RunTrial | lorenceau-experiment.cc:331-415 | sets the condition. On success only slot current_trial changes, to TrialRecord of the draws, delays and key. On failure no slot changes. Frames hold their grids up to the first failing upload |
| Lorenceau.SessionRecordsOrdered | lib/qexperiment.cc:180-182 | records of consecutive trials, each begun when the ones before are over, have their phases in order and each trial starts after the previous answer |
| Lorenceau.SessionSoFarStep | lib/qexperiment.cc:180-182 | writing trial n's record, begun at StartClock(n), extends the session's records by one trial and its key and leaves the later slots alone |
| Lorenceau.SessionKeysCount | lib/qexperiment.cc:180-182 | SessionKeys has one answer key per trial CompletedTrials counts |
| Lorenceau.KeysSoFarStep | lorenceau-experiment.cc:353-381 | one more trial's key presses move its answer key from the queue's remaining keys to the keys read; without them the keys read are all there are |
| Lorenceau.LorenceauExperiment.SessionStep | lib/qexperiment.cc:180-182 | one iteration of the for loop, run with env(current_trial). It fails iff the queue completes no trial, and current_trial then stays. On success slot current_trial holds TrialRecord of env(current_trial)'s draws and delays, the clock at the trial's start and the queue's answer key; current_trial moves on by one, the clock is StartClock of it, counting and the keys resume after the answer |
| Lorenceau.LorenceauExperiment.RunRemainingTrials | lib/qexperiment.cc:180-183 | trials from current_trial on run until one fails or all are done; success iff current_trial reaches ntrials; the keys read are then all of the queue's keys, and the session's records and untouched slots are kept |
| Lorenceau.LorenceauExperiment.RunSession | lib/qexperiment.cc:177-184 | succeeds iff all ntrials complete. current_trial is the number completed. keys is SessionKeys of the queue, the answers in order. Slot k < current_trial holds TrialRecord of env(k)'s draws and delays, StartClock(k) and keys[k]. Written slots are ordered records, each trial after the one before; the slots after are unchanged |

## Left out

- Qt widgets, palettes, menus and settings: the message functions keep only the message type and the list.
- X11, EGL, GLES, RandR, Cairo, libpng and HDF5 calls: the model sees their results only. An image loads with a size or fails, an upload fails or not, and a swap is a picture appended to the screen. Pixels and shaders are not modelled.
- `Setup` conversions (`deg2pix`, `lum2px`, `ds2pf`) and the trigonometry behind `bx, by, dx, dy`: these are inputs (`Motion`), since `Setup` is not part of this model and the arithmetic is floating-point trigonometry.
- mt19937 draws, `time()` and `clock_gettime`: draws are inputs (`Draws`); the clock is a counter that moves forward by input delays; the creation date is an input.
- TCLAP command-line handling, the `NO_INTERACTIVE` build (which skips both waits) and the `BUGGY_EGL_SWAP_INTERVAL` build (which swaps `swap_interval` times per frame): only the default build is modelled.
- Floating point is modelled as exact reals, so rounding of `float` results and NaN are not modelled.
- `atof` is modelled on a leading run of decimal digits. Signs, fractions and exponents are not modelled. Nor is leading white space, which `atof` skips (" 640x480" is 640×480 in source, ZeroDimension in the model), nor hexadecimal ("0x480" reads as 1152×480 in source, ZeroDimension in the model). A side above 2^32−1 overflows the `unsigned` target in egl-anim.cc, which C leaves undefined; the model accepts any natural number.
- Blocking waits: the event queue is finite, and running out of events stands for a wait that never returns.
- KeyEvents.WaitAnyKey: in this revision `wait_any_key` prints "NYI" and returns false, and `wait_for_key` and `show_frame` are disabled too. The model follows the bodies kept under `#if 0`, since as compiled no trial can complete.
- Lorenceau.LorenceauExperiment.ShowFrames: always succeeds, following the disabled loop body and the commented-out `return true`. As compiled the stub returns false.
- Lorenceau.LorenceauExperiment.RunTrial: `show_frame` and `clear_screen` results are not checked in the source, and the model ignores them too. The HDF5 write and flush are taken to succeed.
- Lorenceau.CreateResultFile: the commit attribute is a 40-byte fixed string in the source; the model keeps the string as given.
- FrameTiming.RandRTiming: the timing code of lib/qexperiment.cc:22-168 is a detached fragment of the window setup inside `#if 0`; the model follows it as written, and the RandR queries that pick the monitor are left out, since they only yield the measured rate.
- FrameTiming.TextureSize: the texture sizing of `egl_init` is also inside `#if 0`, and the compiled `egl_init` prints "NYI"; the model follows the disabled body.
- Messages.MessageBoard.UpdateConverters: the mismatch `err` is an input, because it is computed from text fields with `toFloat`. The distance, `px_mm`, the widgets attached to the message and their colours are not modelled.
- Condition.Direction: computed in whole degrees; the source computes it in `float` radians, and uses it only through `dx, dy`, which are inputs.
- FrameTiming.ComputeTiming: requires coef ≥ 1, so the model leaves out coef = 0, which the source does not guard against. With refresh > 0, C turns refresh/0 into an infinite rate, which the tolerance test rejects. With refresh = 0 it gives NaN; `NaN > 0.01` is false, so the test accepts it and the later `nearbyintf` and `int` conversion are undefined.
- Lorenceau.LorenceauExperiment.Grid: requires spacing ≥ 1 (a class invariant). Without it a step below one pixel could stop the grid loops from advancing.
- EglAnim.Play: the EGL and GLES setup calls are taken to succeed. The source returns 1 when clock_getres, eglGetDisplay, eglInitialize, window creation, context or surface creation, shader compilation or linking, or an attribute or uniform lookup fails (egl-anim.cc:226-229, 245-288, 357-375, 417-459, 511-515). The model goes from the geometry straight to loading the images.
- EglAnim.Play: its answer is stated through the two wait functions, not through the clock readings, which only print.
- The HDF5 flushes, when the result file is opened (lorenceau-experiment.cc:323) and after every trial (lorenceau-experiment.cc:412), are not modelled: a record is in the dataset once written.

## Findings

| source | as written | input that shows it | evidently intended | confidence | as-written member | corrected member |
|---|---|---|---|---|---|---|
| egl-anim.cc:378-379 | `(width-twidth)/2.0f` subtracts in `unsigned int`, because `width` is unsigned | a 1024-px texture in an 800-px window: about 2147483536 instead of -112 (float rounding then gives about 2.1e9) | centre the quad with a negative offset when the texture is larger than the window | not executed | EglAnim.OffsetAsWritten (EglAnim.OffsetWrapsForLargeTexture) | EglAnim.Offset (EglAnim.QuadCentred) |
