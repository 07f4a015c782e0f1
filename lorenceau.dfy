/**
  The Lorenceau experiment (lorenceau-experiment.cc) together with the session
  loop it inherits from `QExperiment` (lib/qexperiment.cc): the result record
  of a trial, the trial's phase sequence with its timestamps, the per-trial
  frames, the result dataset of `ntrials` slots, the refusal to overwrite an
  existing result file and the parsing of the stimulus geometry in `main`.

  Collaborators are inputs: the random draws of a trial, the trigonometric
  results `bx, by, dx, dy` of `make_frames`, which texture uploads fail, the
  time that passes between clock readings, and the X event queue.
*/
module Lorenceau {
  import opened Wrappers
  import opened KeyEvents
  import opened Condition
  import opened FrameTiming
  import opened LineGrid
  import opened Geometry

  // Timestamps of CLOCK_MONOTONIC_RAW

  /** A `struct timespec` reading. */
  datatype Timespec = Timespec(sec: int, nsec: int)

  /** The reading of a clock that stands at `ns` nanoseconds. */
  function ToTimespec(ns: nat): (t: Timespec)
    ensures 0 <= t.sec && 0 <= t.nsec < 1000000000
    ensures t.sec * 1000000000 + t.nsec == ns
  {
    Timespec(ns / 1000000000, ns % 1000000000)
  }

  /** Chronological order of readings: seconds first, then nanoseconds. */
  predicate TimespecLe(a: Timespec, b: Timespec) {
    a.sec < b.sec || (a.sec == b.sec && a.nsec <= b.nsec)
  }

  /** Readings compare as the clock values they come from. */
  lemma ToTimespecMonotone(a: nat, b: nat)
    ensures TimespecLe(ToTimespec(a), ToTimespec(b)) <==> a <= b
  {
    var ta, tb := ToTimespec(a), ToTimespec(b);
    if ta.sec < tb.sec {
      assert a < (ta.sec + 1) * 1000000000 <= tb.sec * 1000000000 <= b;
    } else if tb.sec < ta.sec {
      assert b < (tb.sec + 1) * 1000000000 <= ta.sec * 1000000000 <= a;
    }
  }

  // The result record

  /** `SessionResult`: the four phase timestamps, the condition and the answer of one trial. */
  datatype SessionResult = SessionResult(
    fixation: Timespec,
    frames: Timespec,
    question: Timespec,
    answer: Timespec,
    config: bv8,
    lineLuminance: real,
    lineLength: real,
    presentationTime: int,
    response: bv8)

  /** The phases of a trial were stamped fixation, frames, question, answer. */
  predicate PhasesOrdered(r: SessionResult) {
    TimespecLe(r.fixation, r.frames) && TimespecLe(r.frames, r.question) && TimespecLe(r.question, r.answer)
  }

  /** Trial duration in ms (`dur_ms`) and line length in degrees (`ll_deg`). */
  const DurationMs: real := 332.0
  const LineLengthDeg: real := 2.7

  /** The random factors of a trial: `bin_dist` three times, then `lum_dist`. */
  datatype Draws = Draws(up: bool, cw: bool, control: bool, lum: LumIndex)

  /** Time that passes before each of the four clock readings of a trial, in ns. */
  datatype Delays = Delays(toFixation: nat, toFrames: nat, toQuestion: nat, toAnswer: nat)

  function TotalDelay(d: Delays): nat {
    d.toFixation + d.toFrames + d.toQuestion + d.toAnswer
  }

  /** The record initialiser of `run_trial`, from the four readings, the draws and the answer key. */
  function RecordOf(tFix: Timespec, tFrames: Timespec, tQuestion: Timespec, tAnswer: Timespec,
                    d: Draws, key: int): SessionResult
  {
    SessionResult(
      tFix, tFrames, tQuestion, tAnswer,
      EncodeConfig(d.cw, d.control, d.up),
      LineLuminance(d.lum),
      LineLengthDeg,
      Trunc(DurationMs),
      if key == XK_Up then 1 else 0)
  }

  /** Clock values of the four readings of a trial that began at `clock0`. */
  function FixationTime(delays: Delays, clock0: nat): nat { clock0 + delays.toFixation }
  function FramesTime(delays: Delays, clock0: nat): nat { FixationTime(delays, clock0) + delays.toFrames }
  function QuestionTime(delays: Delays, clock0: nat): nat { FramesTime(delays, clock0) + delays.toQuestion }
  function AnswerTime(delays: Delays, clock0: nat): nat { QuestionTime(delays, clock0) + delays.toAnswer }

  /**
    The record a completed trial writes, when the clock stood at `clock0` as
    the trial began and `key` was the answer.
  */
  function TrialRecord(d: Draws, delays: Delays, clock0: nat, key: int): (r: SessionResult)
    ensures PhasesOrdered(r)
    ensures TimespecLe(ToTimespec(clock0), r.fixation)
    ensures r.answer == ToTimespec(clock0 + TotalDelay(delays))
    ensures DecodeConfig(r.config) == Factors(d.cw, d.control, d.up) && r.config < 8
    ensures r.response == 1 <==> key == XK_Up
    ensures r.response <= 1
    ensures r.lineLuminance in Luminances && r.lineLength == LineLengthDeg
    ensures r.presentationTime == 332
  {
    var tFix := FixationTime(delays, clock0);
    var tFrames := FramesTime(delays, clock0);
    var tQuestion := QuestionTime(delays, clock0);
    var tAnswer := AnswerTime(delays, clock0);
    ToTimespecMonotone(clock0, tFix);
    ToTimespecMonotone(tFix, tFrames);
    ToTimespecMonotone(tFrames, tQuestion);
    ToTimespecMonotone(tQuestion, tAnswer);
    DecodeEncode(d.cw, d.control, d.up);
    RecordOf(ToTimespec(tFix), ToTimespec(tFrames), ToTimespec(tQuestion), ToTimespec(tAnswer), d, key)
  }

  // Key presses of a trial

  /** Where the queue stands after a trial's answer, and the answer key. */
  datatype TrialKeys = TrialKeys(next: nat, key: int)

  /**
    The key presses a trial waits for, reading the queue from `from`: any key
    to start, then Up or Down as the answer; `None` when the queue runs out
    first.
  */
  function TrialKeyPresses(events: seq<Event>, from: nat): (r: Option<TrialKeys>)
    requires from <= |events|
    ensures r.Some? ==> from < r.value.next <= |events|
    ensures r.Some? ==> events[r.value.next - 1] == KeyPress(r.value.key)
    ensures r.Some? ==> r.value.key == XK_Up || r.value.key == XK_Down
  {
    match NextKeyPress(events, from)
    case None => None
    case Some(s) =>
      match NextAccepted(events, s + 1, AnswerKeys)
      case None => None
      case Some(a) => Some(TrialKeys(a + 1, events[a].keysym))
  }

  /** A trial gets its keys exactly when some key press is later followed by an Up or Down press. */
  lemma TrialKeysIff(events: seq<Event>, from: nat)
    requires from <= |events|
    ensures TrialKeyPresses(events, from).Some? <==>
      exists i, j :: from <= i < j < |events| && events[i].KeyPress? && Accepts(events[j], AnswerKeys)
  {
    NextKeyPressIsFirst(events, from);
    match NextKeyPress(events, from)
    case None =>
    case Some(s) =>
      NextAcceptedIsFirst(events, s + 1, AnswerKeys);
      match NextAccepted(events, s + 1, AnswerKeys)
      case Some(a) =>
        assert events[s].KeyPress? && Accepts(events[a], AnswerKeys);
      case None =>
        forall i, j | from <= i < j < |events| && events[i].KeyPress?
          ensures !Accepts(events[j], AnswerKeys)
        {
          assert s <= i;
        }
  }

  // Geometry of the stimulus window

  /** Window size and mode the experiment opens. */
  datatype WindowSpec = WindowSpec(width: nat, height: nat, fullscreen: bool)

  /**
    The `--geometry` option: an empty string selects the setup's resolution in
    full screen; otherwise `WIDTHxHEIGHT` selects a window of that size.
  */
  function ParseStimulusGeometry(geom: string, resolution: (nat, nat)): (r: Result<WindowSpec, GeometryError>)
    ensures geom == [] ==> r == Ok(WindowSpec(resolution.0, resolution.1, true))
    ensures geom != [] && 'x' !in geom ==> r == Err(NoSeparator)
    ensures geom != [] && r.Ok? ==> !r.value.fullscreen && r.value.width >= 1 && r.value.height >= 1
    ensures geom != [] && r.Ok? ==>
      var sep := Find(geom, 'x').value;
      r.value.width == LeadingNumber(geom[..sep]) && r.value.height == LeadingNumber(geom[sep + 1..])
    ensures geom != [] ==> (r.Ok? <==> ParseDimensions(geom).Ok?)
    ensures geom != [] && r.Err? ==> r.error == ParseDimensions(geom).error
  {
    if geom == [] then Ok(WindowSpec(resolution.0, resolution.1, true))
    else match ParseDimensions(geom)
      case Err(e) => Err(e)
      case Ok(dims) => Ok(WindowSpec(dims.0, dims.1, false))
  }

  lemma ParseStimulusFormatted(w: nat, h: nat, resolution: (nat, nat))
    requires w >= 1 && h >= 1
    ensures ParseStimulusGeometry(NatToString(w) + "x" + NatToString(h), resolution) == Ok(WindowSpec(w, h, false))
  {
    ParseFormatted(w, h);
  }

  // The result file

  datatype Attribute = Text(s: string) | Long(n: int)

  /** What `uname` reports about the machine. */
  datatype Uname = Uname(sysname: string, nodename: string)

  datatype FileError = AlreadyExists | UnameFailed

  /** A result file: its path, the number of slots of its dataset and the dataset's attributes. */
  datatype ResultFile = ResultFile(path: string, slots: nat, attributes: map<string, Attribute>)

  /**
    Creating the result file, over the set of existing paths: an existing path
    is refused before anything is created; otherwise the file is created with
    a dataset of `ntrials` slots and the session attributes, and a failing
    `uname` aborts after the file exists.
  */
  function CreateResultFile(files: set<string>, path: string, ntrials: nat, subject: string,
                            date: int, uname: Option<Uname>, commit: string): (r: (set<string>, Result<ResultFile, FileError>))
    ensures path in files ==> r == (files, Err(AlreadyExists))
    ensures path !in files ==> r.0 == files + {path}
    ensures path !in files ==> (r.1 == Err(UnameFailed) <==> uname.None?)
    ensures r.1.Ok? ==> r.1.value.path == path && r.1.value.slots == ntrials
    ensures r.1.Ok? ==> var at := r.1.value.attributes;
      at.Keys == {"subject", "date", "sysname", "nodename", "commit"} &&
      at["subject"] == Text(subject) && at["date"] == Long(date) && at["commit"] == Text(commit) &&
      at["sysname"] == Text(uname.value.sysname) && at["nodename"] == Text(uname.value.nodename)
  {
    if path in files then (files, Err(AlreadyExists))
    else
      var created := files + {path};
      match uname
      case None => (created, Err(UnameFailed))
      case Some(u) =>
        var at := map["subject" := Text(subject), "date" := Long(date)];
        var at := at["sysname" := Text(u.sysname)]["nodename" := Text(u.nodename)];
        (created, Ok(ResultFile(path, ntrials, at["commit" := Text(commit)])))
  }

  /** An existing result file is never overwritten, and a second creation at the same path is refused. */
  lemma NoOverwrite(files: set<string>, path: string, ntrials: nat, subject: string,
                    date: int, uname: Option<Uname>, commit: string)
    ensures var (after, _) := CreateResultFile(files, path, ntrials, subject, date, uname, commit);
      CreateResultFile(after, path, ntrials, subject, date, uname, commit).1 == Err(AlreadyExists)
  {
  }

  // The experiment

  /** Trigonometric results of `make_frames`: line extent `bx, by` (here barX, barY) and displacement per frame `dx, dy`. */
  datatype Motion = Motion(barX: int, barY: int, dx: int, dy: int)

  /** What the outside world supplies to one trial. */
  datatype TrialEnv = TrialEnv(draws: Draws, motion: Motion, uploadFailures: set<nat>, delays: Delays)

  /** What is on the screen after a buffer swap. */
  datatype Picture = FixationFrame | QuestionFrame | Blank | Lines(origins: seq<Point>)

  function AsPictures(frames: seq<seq<Point>>): (ps: seq<Picture>)
  {
    seq(|frames|, i requires 0 <= i < |frames| => Lines(frames[i]))
  }

  /** Frames 0 .. k-1 upload; frame k, when k < n, is the first whose upload fails. */
  function UploadedFrom(failures: set<nat>, i: nat, n: nat): (k: nat)
    requires i <= n
    ensures i <= k <= n
    ensures forall j :: i <= j < k ==> j !in failures
    ensures k < n ==> k in failures
    decreases n - i
  {
    if i == n || i in failures then i else UploadedFrom(failures, i + 1, n)
  }

  /**
    The number of trials, at most n, the event queue lets complete, read one
    event at a time from `pos`: a trial waits for any key press, then
    (`answering`) for Up or Down, and the next trial starts on the events after
    the answer.
  */
  function CompletedTrials(events: seq<Event>, pos: nat, answering: bool, n: nat): (k: nat)
    requires pos <= |events|
    ensures k <= n
    decreases |events| - pos
  {
    if n == 0 || pos == |events| then 0
    else if !answering then CompletedTrials(events, pos + 1, events[pos].KeyPress?, n)
    else if Accepts(events[pos], AnswerKeys) then 1 + CompletedTrials(events, pos + 1, false, n - 1)
    else CompletedTrials(events, pos + 1, true, n)
  }

  /** Waiting for the start press skips everything up to the first key press. */
  lemma {:induction false} CompletedAtStart(events: seq<Event>, pos: nat, n: nat)
    requires n > 0 && pos <= |events|
    ensures NextKeyPress(events, pos).None? ==> CompletedTrials(events, pos, false, n) == 0
    ensures NextKeyPress(events, pos).Some? ==>
      CompletedTrials(events, pos, false, n) == CompletedTrials(events, NextKeyPress(events, pos).value + 1, true, n)
    decreases |events| - pos
  {
    if pos < |events| && !events[pos].KeyPress? {
      CompletedAtStart(events, pos + 1, n);
    }
  }

  /** Waiting for the answer skips everything up to the first Up or Down press. */
  lemma {:induction false} CompletedAtAnswer(events: seq<Event>, pos: nat, n: nat)
    requires n > 0 && pos <= |events|
    ensures NextAccepted(events, pos, AnswerKeys).None? ==> CompletedTrials(events, pos, true, n) == 0
    ensures NextAccepted(events, pos, AnswerKeys).Some? ==>
      CompletedTrials(events, pos, true, n) == 1 + CompletedTrials(events, NextAccepted(events, pos, AnswerKeys).value + 1, false, n - 1)
    decreases |events| - pos
  {
    if pos < |events| && !Accepts(events[pos], AnswerKeys) {
      CompletedAtAnswer(events, pos + 1, n);
    }
  }

  /** A trial completes from the queue exactly when its key presses are there, and the count goes on after them. */
  lemma CompletedTrialsStep(events: seq<Event>, pos: nat, n: nat)
    requires n > 0 && pos <= |events|
    ensures TrialKeyPresses(events, pos).None? ==> CompletedTrials(events, pos, false, n) == 0
    ensures TrialKeyPresses(events, pos).Some? ==>
      CompletedTrials(events, pos, false, n) == 1 + CompletedTrials(events, TrialKeyPresses(events, pos).value.next, false, n - 1)
  {
    CompletedAtStart(events, pos, n);
    match NextKeyPress(events, pos)
    case None =>
    case Some(s) =>
      CompletedAtAnswer(events, s + 1, n);
  }

  /** The answer keys of the trials the queue completes from `pos`, at most n of them, in order. */
  function SessionKeys(events: seq<Event>, pos: nat, n: nat): (keys: seq<int>)
    requires pos <= |events|
    ensures |keys| <= n
    ensures forall i :: 0 <= i < |keys| ==> keys[i] == XK_Up || keys[i] == XK_Down
    decreases n
  {
    if n == 0 then []
    else match TrialKeyPresses(events, pos)
      case None => []
      case Some(t) => [t.key] + SessionKeys(events, t.next, n - 1)
  }

  /** There is one answer key for each completed trial. */
  lemma {:induction false} SessionKeysCount(events: seq<Event>, pos: nat, n: nat)
    requires pos <= |events|
    ensures |SessionKeys(events, pos, n)| == CompletedTrials(events, pos, false, n)
    decreases n
  {
    if n > 0 {
      CompletedTrialsStep(events, pos, n);
      match TrialKeyPresses(events, pos)
      case None =>
      case Some(t) => SessionKeysCount(events, t.next, n - 1);
    }
  }

  /** `keys` are the answers read so far, and the events from `pos` supply the rest of `all`, of at most `left` trials. */
  ghost predicate KeysSoFar(events: seq<Event>, pos: nat, left: nat, keys: seq<int>, all: seq<int>) {
    pos <= |events| && keys + SessionKeys(events, pos, left) == all
  }

  /** Reading one more trial's keys moves its answer from the rest of the queue to the keys read. */
  lemma KeysSoFarStep(events: seq<Event>, pos: nat, left: nat, keys: seq<int>, all: seq<int>)
    requires KeysSoFar(events, pos, left, keys, all) && left > 0
    ensures TrialKeyPresses(events, pos).None? ==> keys == all
    ensures TrialKeyPresses(events, pos).Some? ==>
      KeysSoFar(events, TrialKeyPresses(events, pos).value.next, left - 1, keys + [TrialKeyPresses(events, pos).value.key], all)
  {
    match TrialKeyPresses(events, pos)
    case None =>
    case Some(t) =>
      assert keys + ([t.key] + SessionKeys(events, t.next, left - 1)) == (keys + [t.key]) + SessionKeys(events, t.next, left - 1);
  }

  /** The clock as trial n begins, when trial 0 began at `clock0` and the trials before n took their delays. */
  function StartClock(env: nat -> TrialEnv, clock0: nat, n: nat): nat {
    if n == 0 then clock0 else StartClock(env, clock0, n - 1) + TotalDelay(env(n - 1).delays)
  }

  /**
    The first n slots hold the records of trials 0 .. n-1: trial k ran with
    `env(k)`'s draws and delays, began when trials 0 .. k-1 were over and was
    answered with `keys[k]`.
  */
  ghost predicate SessionRecords(slots: seq<Option<SessionResult>>, n: nat, env: nat -> TrialEnv, clock0: nat, keys: seq<int>) {
    && n <= |slots| && |keys| == n
    && forall k {:trigger slots[k]} :: 0 <= k < n ==> slots[k] == Some(TrialRecord(env(k).draws, env(k).delays, StartClock(env, clock0, k), keys[k]))
  }

  /** Each of the first n slots holds a record whose phases are in order, and each trial starts after the previous answer. */
  ghost predicate SessionOrdered(slots: seq<Option<SessionResult>>, n: nat) {
    && n <= |slots|
    && (forall k :: 0 <= k < n ==> slots[k].Some? && PhasesOrdered(slots[k].value))
    && (forall k :: 0 < k < n ==> TimespecLe(slots[k - 1].value.answer, slots[k].value.fixation))
  }

  /** The records of a session are in chronological order. */
  lemma SessionRecordsOrdered(slots: seq<Option<SessionResult>>, n: nat, env: nat -> TrialEnv, clock0: nat, keys: seq<int>)
    requires SessionRecords(slots, n, env, clock0, keys)
    ensures SessionOrdered(slots, n)
  {
    forall k | 0 < k < n
      ensures TimespecLe(slots[k - 1].value.answer, slots[k].value.fixation)
    {
      var r := TrialRecord(env(k).draws, env(k).delays, StartClock(env, clock0, k), keys[k]);
      assert slots[k - 1].value.answer == ToTimespec(StartClock(env, clock0, k));
      assert TimespecLe(ToTimespec(StartClock(env, clock0, k)), r.fixation);
    }
  }

  /**
    The session after n trials begun at `clock0`: their records in the first n
    slots, and the remaining slots as they were at the start.
  */
  ghost predicate SessionSoFar(slots: seq<Option<SessionResult>>, init: seq<Option<SessionResult>>, n: nat, env: nat -> TrialEnv, clock0: nat, keys: seq<int>) {
    && SessionRecords(slots, n, env, clock0, keys)
    && |slots| == |init|
    && (forall k :: n <= k < |slots| ==> slots[k] == init[k])
  }

  /** Writing trial n's record, begun when trials 0 .. n-1 were over, moves the session on by one trial. */
  lemma SessionSoFarStep(before: seq<Option<SessionResult>>, init: seq<Option<SessionResult>>, n: nat, env: nat -> TrialEnv, clock0: nat, keys: seq<int>, key: int)
    requires SessionSoFar(before, init, n, env, clock0, keys) && n < |before|
    ensures SessionSoFar(before[n := Some(TrialRecord(env(n).draws, env(n).delays, StartClock(env, clock0, n), key))], init, n + 1, env, clock0, keys + [key])
  {
    var after := before[n := Some(TrialRecord(env(n).draws, env(n).delays, StartClock(env, clock0, n), key))];
    var keys' := keys + [key];
    forall k | 0 <= k < n + 1
      ensures after[k] == Some(TrialRecord(env(k).draws, env(k).delays, StartClock(env, clock0, k), keys'[k]))
    {
      if k < n {
        assert after[k] == before[k] && keys'[k] == keys[k];
      }
    }
  }

  class LorenceauExperiment {
    const ntrials: nat
    const nframes: nat
    const swapInterval: int
    const apertureDiam: int
    const spacing: real
    const texWidth: int
    const texHeight: int

    /** Condition of the current trial. */
    var up: bool
    var cw: bool
    var control: bool
    var fgCd: real
    var llDeg: real

    var currentTrial: int
    /** CLOCK_MONOTONIC_RAW, in ns. */
    var clock: nat
    /** The X event queue in arrival order, and how many of its events have been read. */
    const events: seq<Event>
    var pos: nat
    /** Pictures swapped onto the screen so far, and the swap-interval requests. */
    var screen: seq<Picture>
    var intervalCalls: nat

    /** The result dataset, one slot per trial. */
    const dset: array<Option<SessionResult>>
    /** Contents of the trial's frame textures (`tframes`). */
    const frames: array<seq<Point>>

    ghost predicate Valid()
      reads this
    {
      dset.Length == ntrials && frames.Length == nframes && pos <= |events| &&
      spacing >= 1.0 && swapInterval >= 1 &&
      apertureDiam >= 1 && texWidth == TextureSize(apertureDiam) && texHeight == texWidth
    }

    /**
      The experiment after `egl_init` has sized the textures and the result
      file has been created: 100 trials, an empty dataset, blank frame textures.
    */
    constructor (timing: Timing, apertureDiameter: int, spacingPx: real, queue: seq<Event>, clock0: nat)
      requires apertureDiameter >= 1 && spacingPx >= 1.0
      requires timing.swapInterval >= 1 && timing.nframes >= 0
      ensures Valid()
      ensures ntrials == 100 && nframes == timing.nframes && swapInterval == timing.swapInterval
      ensures spacing == spacingPx && apertureDiam == apertureDiameter
      ensures fresh(dset) && fresh(frames)
      ensures forall k :: 0 <= k < dset.Length ==> dset[k].None?
      ensures events == queue && pos == 0 && clock == clock0 && screen == [] && intervalCalls == 0
    {
      ntrials := 100;
      nframes := timing.nframes;
      swapInterval := timing.swapInterval;
      apertureDiam := apertureDiameter;
      spacing := spacingPx;
      var tex := TextureSize(apertureDiameter);
      texWidth, texHeight := tex, tex;
      dset := new Option<SessionResult>[100](_ => None);
      frames := new seq<Point>[timing.nframes](_ => []);
      up, cw, control, fgCd, llDeg := false, false, false, 0.0, 0.0;
      currentTrial := 0;
      clock := clock0;
      events := queue;
      pos := 0;
      screen := [];
      intervalCalls := 0;
    }

    /** Grid of frame i: the aperture centred in the texture, lines of extent `|bx| x |by|`. */
    function Grid(m: Motion): (g: GridParams)
      requires spacing >= 1.0
      ensures StepsProgress(g)
      ensures g.offx == Trunc((texWidth as real - apertureDiam as real) / 2.0)
      ensures g.offy == Trunc((texHeight as real - apertureDiam as real) / 2.0)
      ensures g.sx == (if m.barX < 0 then -m.barX else m.barX) && g.sy == (if m.barY < 0 then -m.barY else m.barY)
      ensures g.dx == m.dx && g.dy == m.dy && g.spacing == spacing && g.texWidth == texWidth && g.texHeight == texHeight
    {
      GridParams(
        Trunc((texWidth as real - apertureDiam as real) / 2.0),
        Trunc((texHeight as real - apertureDiam as real) / 2.0),
        m.dx, m.dy,
        if m.barX < 0 then -m.barX else m.barX,
        if m.barY < 0 then -m.barY else m.barY,
        spacing, texWidth, texHeight)
    }

    /**
      Draw every frame of the trial and upload it to its texture; the loop stops
      at the first upload that fails.
    */
    method MakeFrames(m: Motion, uploadFailures: set<nat>) returns (ok: bool)
      requires Valid()
      modifies frames
      ensures ok <==> forall i :: 0 <= i < nframes ==> i !in uploadFailures
      ensures forall i :: 0 <= i < UploadedFrom(uploadFailures, 0, nframes) ==> frames[i] == FrameOrigins(Grid(m), i)
      ensures forall i :: UploadedFrom(uploadFailures, 0, nframes) <= i < nframes ==> frames[i] == old(frames[i])
    {
      var g := Grid(m);
      var i := 0;
      while i < nframes
        invariant 0 <= i <= nframes
        invariant forall j :: 0 <= j < i ==> j !in uploadFailures && frames[j] == FrameOrigins(g, j)
        invariant forall j :: i <= j < nframes ==> frames[j] == old(frames[j])
      {
        var pts := LineOrigins(g, i);
        if i in uploadFailures {
          return false;
        }
        frames[i] := pts;
        i := i + 1;
      }
      return true;
    }

    /** `show_frames`: each frame texture is bound in order and presented by one buffer swap. */
    method ShowFrames() returns (ok: bool)
      requires Valid()
      modifies this`screen, this`intervalCalls
      ensures ok
      ensures screen == old(screen) + AsPictures(frames[..])
      ensures intervalCalls == old(intervalCalls) + (if swapInterval != 1 then nframes else 0)
    {
      var i := 0;
      while i < nframes
        invariant 0 <= i <= nframes
        invariant screen == old(screen) + AsPictures(frames[..i])
        invariant intervalCalls == old(intervalCalls) + (if swapInterval != 1 then i else 0)
      {
        if swapInterval != 1 {
          intervalCalls := intervalCalls + 1;
        }
        assert AsPictures(frames[..i + 1]) == AsPictures(frames[..i]) + [Lines(frames[i])];
        screen := screen + [Lines(frames[i])];
        i := i + 1;
      }
      assert frames[..i] == frames[..];
      return true;
    }

    /** `clock_gettime` after `elapsed` ns have passed. */
    method ReadClock(elapsed: nat) returns (t: Timespec)
      modifies this`clock
      ensures clock == old(clock) + elapsed && t == ToTimespec(clock)
    {
      clock := clock + elapsed;
      t := ToTimespec(clock);
    }

    /** Show the question frame and wait for Up or Down; the clock is read before and after. */
    method AskAnswer(delays: Delays) returns (found: bool, key: int, tQuestion: Timespec, tAnswer: Timespec)
      requires pos <= |events|
      modifies this`screen, this`clock, this`pos
      ensures old(pos) <= pos <= |events|
      ensures found <==> NextAccepted(events, old(pos), AnswerKeys).Some?
      ensures found ==> pos == NextAccepted(events, old(pos), AnswerKeys).value + 1 && key == events[pos - 1].keysym
      ensures !found ==> pos == |events|
      ensures screen == old(screen) + [QuestionFrame]
      ensures tQuestion == ToTimespec(old(clock) + delays.toQuestion)
      ensures clock >= old(clock)
      ensures found ==> clock == old(clock) + delays.toQuestion + delays.toAnswer && tAnswer == ToTimespec(clock)
    {
      tAnswer := Timespec(0, 0);
      tQuestion := ReadClock(delays.toQuestion);
      screen := screen + [QuestionFrame];
      found, key, pos := WaitForKey(events, pos, AnswerKeys);
      if found {
        tAnswer := ReadClock(delays.toAnswer);
      }
    }

    /**
      The presentation part of a trial: show the fixation frame and wait for a
      key, clear the screen and show the frames, then ask for the answer.  The
      clock is read before each phase and after the answer.
    */
    method PresentTrial(delays: Delays) returns (ok: bool, key: int, tFix: Timespec, tFrames: Timespec, tQuestion: Timespec, tAnswer: Timespec)
      requires Valid()
      modifies this`screen, this`intervalCalls, this`clock, this`pos
      ensures old(pos) <= pos <= |events|
      ensures ok <==> TrialKeyPresses(events, old(pos)).Some?
      ensures ok ==> key == TrialKeyPresses(events, old(pos)).value.key && pos == TrialKeyPresses(events, old(pos)).value.next
      ensures !ok ==> pos == |events|
      ensures clock >= old(clock)
      ensures ok ==> clock == old(clock) + TotalDelay(delays)
      ensures ok ==> tFix == ToTimespec(FixationTime(delays, old(clock))) && tFrames == ToTimespec(FramesTime(delays, old(clock)))
      ensures ok ==> tQuestion == ToTimespec(QuestionTime(delays, old(clock))) && tAnswer == ToTimespec(AnswerTime(delays, old(clock)))
      ensures ok ==> screen == old(screen) + [FixationFrame, Blank] + AsPictures(frames[..]) + [QuestionFrame]
    {
      ghost var s0 := screen;
      ok, key, tFrames, tQuestion, tAnswer := false, 0, Timespec(0, 0), Timespec(0, 0), Timespec(0, 0);
      tFix := ReadClock(delays.toFixation);
      screen := screen + [FixationFrame];
      var pressed;
      pressed, pos := WaitAnyKey(events, pos);
      if !pressed {
        return;
      }

      screen := screen + [Blank];
      tFrames := ReadClock(delays.toFrames);
      var shown := ShowFrames();
      if !shown {
        return;
      }

      ok, key, tQuestion, tAnswer := AskAnswer(delays);
      if ok {
        ghost var shownFrames := AsPictures(frames[..]);
        assert screen == s0 + [FixationFrame] + [Blank] + shownFrames + [QuestionFrame];
        assert s0 + [FixationFrame] + [Blank] == s0 + [FixationFrame, Blank];
      }
    }

    /**
      One trial: draw the condition, make the frames, present the trial, then
      write the record in slot `currentTrial`.  A wait that runs out of events
      ends the trial before anything is written.
    */
    method RunTrial(env: TrialEnv) returns (ok: bool)
      requires Valid() && 0 <= currentTrial < ntrials
      modifies this, dset, frames
      ensures Valid() && currentTrial == old(currentTrial)
      ensures up == env.draws.up && cw == env.draws.cw && control == env.draws.control
      ensures fgCd == LineLuminance(env.draws.lum) && llDeg == LineLengthDeg
      ensures ok <==> TrialKeyPresses(events, old(pos)).Some?
      ensures ok ==> pos == TrialKeyPresses(events, old(pos)).value.next
      ensures !ok ==> pos == |events|
      ensures ok ==> clock == old(clock) + TotalDelay(env.delays)
      ensures clock >= old(clock)
      ensures ok ==>
        dset[currentTrial] == Some(TrialRecord(env.draws, env.delays, old(clock), TrialKeyPresses(events, old(pos)).value.key))
      ensures forall k :: 0 <= k < dset.Length && (k != currentTrial || !ok) ==> dset[k] == old(dset[k])
      ensures ok ==> screen == old(screen) + [FixationFrame, Blank] + AsPictures(frames[..]) + [QuestionFrame]
      ensures forall i :: 0 <= i < UploadedFrom(env.uploadFailures, 0, nframes) ==> frames[i] == FrameOrigins(Grid(env.motion), i)
    {
      up, cw, control := env.draws.up, env.draws.cw, env.draws.control;
      fgCd := LineLuminance(env.draws.lum);
      llDeg := LineLengthDeg;

      // The result of make_frames is not checked.
      var _ := MakeFrames(env.motion, env.uploadFailures);

      var key, tFix, tFrames, tQuestion, tAnswer;
      ok, key, tFix, tFrames, tQuestion, tAnswer := PresentTrial(env.delays);
      if !ok {
        return;
      }

      var result := RecordOf(tFix, tFrames, tQuestion, tAnswer, Draws(up, cw, control, env.draws.lum), key);
      dset[currentTrial] := Some(result);
    }

    /**
      One iteration of the `for` loop of `run_session`: trial `currentTrial`
      runs with `env(currentTrial)`; on success the session so far grows by it
      and its answer key, and `currentTrial` moves to the next trial; on
      failure it stays.
    */
    method SessionStep(env: nat -> TrialEnv, ghost init: seq<Option<SessionResult>>, ghost clock0: nat,
                       ghost keys: seq<int>, ghost allKeys: seq<int>) returns (ok: bool, ghost key: int, ghost keys': seq<int>)
      requires Valid() && 0 <= currentTrial < ntrials
      requires KeysSoFar(events, pos, ntrials - currentTrial, keys, allKeys)
      requires SessionSoFar(dset[..], init, currentTrial, env, clock0, keys) && clock == StartClock(env, clock0, currentTrial)
      modifies this, dset, frames
      ensures Valid()
      ensures currentTrial == if ok then old(currentTrial) + 1 else old(currentTrial)
      ensures !ok ==> CompletedTrials(events, old(pos), false, ntrials - old(currentTrial)) == 0
      ensures ok ==>
        CompletedTrials(events, old(pos), false, ntrials - old(currentTrial)) == 1 + CompletedTrials(events, pos, false, ntrials - currentTrial)
      ensures ok <==> TrialKeyPresses(events, old(pos)).Some?
      ensures ok ==> key == TrialKeyPresses(events, old(pos)).value.key && keys' == keys + [key]
      ensures !ok ==> keys == allKeys && keys' == keys
      ensures ok ==> KeysSoFar(events, pos, ntrials - currentTrial, keys', allKeys)
      ensures ok ==> clock == old(clock) + TotalDelay(env(old(currentTrial)).delays)
      ensures ok ==> dset[old(currentTrial)] == Some(TrialRecord(env(old(currentTrial)).draws, env(old(currentTrial)).delays, old(clock), key))
      ensures ok ==> SessionSoFar(dset[..], init, currentTrial, env, clock0, keys') && clock == StartClock(env, clock0, currentTrial)
      ensures !ok ==> dset[..] == old(dset[..])
      ensures ok ==> dset[..] == old(dset[..])[old(currentTrial) := dset[old(currentTrial)]]
    {
      ghost var pos0, before, left := pos, dset[..], ntrials - currentTrial;
      CompletedTrialsStep(events, pos, left);
      KeysSoFarStep(events, pos, left, keys, allKeys);
      ok := RunTrial(env(currentTrial));
      key, keys' := 0, keys;
      if ok {
        key := TrialKeyPresses(events, pos0).value.key;
        keys' := keys + [key];
        assert dset[..] == before[currentTrial := dset[currentTrial]];
        SessionSoFarStep(before, init, currentTrial, env, clock0, keys, key);
        ghost var slots := dset[..];
        currentTrial := currentTrial + 1;
        assert dset[..] == slots && ntrials - currentTrial == left - 1;
      } else {
        assert dset[..] == before;
      }
    }

    /**
      The loop of `run_session` from trial `currentTrial` on: trials run in
      order until one fails or all `ntrials` are done, and each success grows
      the session by one record and one answer key.
    */
    method RunRemainingTrials(env: nat -> TrialEnv, ghost init: seq<Option<SessionResult>>, ghost clock0: nat,
                              ghost keys0: seq<int>, ghost allKeys: seq<int>) returns (ok: bool, ghost keys: seq<int>)
      requires Valid() && 0 <= currentTrial <= ntrials
      requires KeysSoFar(events, pos, ntrials - currentTrial, keys0, allKeys)
      requires SessionSoFar(dset[..], init, currentTrial, env, clock0, keys0) && clock == StartClock(env, clock0, currentTrial)
      modifies this, dset, frames
      ensures Valid() && old(currentTrial) <= currentTrial <= ntrials
      ensures ok <==> currentTrial == ntrials
      ensures keys == allKeys
      ensures SessionSoFar(dset[..], init, currentTrial, env, clock0, keys)
    {
      keys := keys0;
      while currentTrial < ntrials
        invariant Valid() && old(currentTrial) <= currentTrial <= ntrials
        invariant KeysSoFar(events, pos, ntrials - currentTrial, keys, allKeys)
        invariant SessionSoFar(dset[..], init, currentTrial, env, clock0, keys) && clock == StartClock(env, clock0, currentTrial)
        decreases ntrials - currentTrial
      {
        ghost var key;
        ok, key, keys := SessionStep(env, init, clock0, keys, allKeys);
        if !ok {
          return false, keys;
        }
      }
      return true, keys;
    }

    /**
      `run_session`: trials 0 .. ntrials-1 in order, stopping at the first that
      fails; `currentTrial` is left at the failing trial.  Slot k holds the
      record of trial k, run with `env(k)` and answered with `keys[k]`, the
      k-th answer the queue supplies.
    */
    method RunSession(env: nat -> TrialEnv) returns (ok: bool, ghost keys: seq<int>)
      requires Valid()
      modifies this, dset, frames
      ensures Valid()
      ensures ok <==> CompletedTrials(events, old(pos), false, ntrials) == ntrials
      ensures currentTrial == CompletedTrials(events, old(pos), false, ntrials)
      ensures keys == SessionKeys(events, old(pos), ntrials)
      ensures SessionRecords(dset[..], currentTrial, env, old(clock), keys)
      ensures SessionOrdered(dset[..], currentTrial)
      ensures forall k :: currentTrial <= k < ntrials ==> dset[k] == old(dset[k])
    {
      ghost var init, clock0 := dset[..], clock;
      ghost var allKeys := SessionKeys(events, pos, ntrials);
      SessionKeysCount(events, pos, ntrials);
      currentTrial := 0;
      ok, keys := RunRemainingTrials(env, init, clock0, [], allKeys);
      SessionRecordsOrdered(dset[..], currentTrial, env, clock0, keys);
    }
  }
}
