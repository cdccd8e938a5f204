/**
 * The recorder screen's own rules: the `MM:SS` timer text, the two-minute timer cut-off,
 * the 60 MiB limit on a picked file and the `disabled` gate on starting. The media
 * recorder, microphone access and the waveform view are outside the model; whether a
 * recorder could be started is a parameter.
 */
module RecordingInterface {
  import opened Wrappers
  import opened Text
  import Validation

  /** The timer cut-off, in seconds. */
  const MaxSeconds: int := 120

  /** The limit on a picked file, in bytes (60 MiB). */
  const MaxUploadSize: nat := 60 * 1024 * 1024

  const LimitError := "Recording limit reached. Please upgrade to premium for unlimited recordings."
  const StartError := "Failed to start recording. Please check your microphone permissions."
  const MicError := "Microphone access denied. Please allow microphone access in your browser settings."
  const SizeError := "File size exceeds 60MB limit"

  // ---------------------------------------------------------------------------
  // formatTime

  /** JavaScript's `%`: the remainder takes the sign of the dividend. */
  function JsRem(a: int, b: int): (r: int)
    requires b > 0
    ensures a >= 0 ==> 0 <= r < b && r == a % b
    ensures a < 0 ==> -b < r <= 0
    ensures (a - r) % b == 0
  {
    if a >= 0 then
      assert a - a % b == (a / b) * b;
      MultipleRem(a / b, b);
      a % b
    else
      NegativeRem(a, b);
      -((-a) % b)
  }

  /** Rounding the magnitude's remainder toward zero still differs from `a` by a multiple of `b`. */
  lemma NegativeRem(a: int, b: int)
    requires a < 0 && b > 0
    ensures (a + (-a) % b) % b == 0
  {
    var m := -a;
    assert m == (m / b) * b + m % b;
    assert a + m % b == (-(m / b)) * b;
    MultipleRem(-(m / b), b);
  }

  /** A multiple of `b` leaves no remainder. */
  lemma MultipleRem(k: int, b: int)
    requires b > 0
    ensures (k * b) % b == 0
  {
    var m := k * b;
    var d := k - m / b;
    assert d * b == m % b by {
      assert m == (m / b) * b + m % b;
      assert d * b == k * b - (m / b) * b;
    }
    if d >= 1 {
      assert d * b == (d - 1) * b + b;
      MulNonNegative(d - 1, b);
    } else if d <= -1 {
      assert d * b == -((-d - 1) * b) - b;
      MulNonNegative(-d - 1, b);
    }
  }

  lemma MulNonNegative(x: int, y: int)
    requires x >= 0 && y >= 0
    ensures x * y >= 0
  {
  }

  /**
   * `formatTime`: `Math.floor(s / 60)` and `s % 60`, each `toString()`-ed and padded to two
   * characters with '0'. (Dafny's `/` by a positive divisor already rounds down.)
   */
  function FormatTime(seconds: int): string {
    Padded(seconds / 60) + ":" + Padded(JsRem(seconds, 60))
  }

  /** `String(n).padStart(2, '0')`. */
  function Padded(n: int): (r: string)
    ensures 2 <= |r|
  {
    PadStart(IntToString(n), 2, '0')
  }

  /** The clock text spelling two two-digit numbers. */
  function ClockText(m: nat, sec: nat): string
    requires m < 100 && sec < 100
  {
    [DigitChar(m / 10), DigitChar(m % 10), ':', DigitChar(sec / 10), DigitChar(sec % 10)]
  }

  /** Text of the form `DD:DD`. */
  predicate IsClockText(t: string) {
    |t| == 5 && t[2] == ':' &&
    IsDecimalDigit(t[0]) && IsDecimalDigit(t[1]) && IsDecimalDigit(t[3]) && IsDecimalDigit(t[4])
  }

  function ClockMinutes(t: string): nat
    requires IsClockText(t)
  {
    DigitValue(t[0]) * 10 + DigitValue(t[1])
  }

  function ClockSeconds(t: string): nat
    requires IsClockText(t)
  {
    DigitValue(t[3]) * 10 + DigitValue(t[4])
  }

  /** `formatTime` of a non-negative count: the padded minutes and seconds. */
  lemma FormatTimeParts(s: int, m: nat, sec: nat)
    requires 0 <= s && m == s / 60 && sec == s % 60
    ensures FormatTime(s) == Padded(m) + ":" + Padded(sec)
  {
    assert JsRem(s, 60) == sec;
  }

  /** The five characters `FormatTime` writes for a count in [0, 6000). */
  lemma FormatTimeChars(s: int, m: nat, sec: nat)
    requires 0 <= s && m == s / 60 && sec == s % 60 && m < 100 && sec < 100
    ensures FormatTime(s) == ClockText(m, sec)
  {
    FormatTimeParts(s, m, sec);
    PadTwoDigits(m);
    PadTwoDigits(sec);
    Concat5(DigitChar(m / 10), DigitChar(m % 10), ':', DigitChar(sec / 10), DigitChar(sec % 10));
  }

  lemma Concat5(a: char, b: char, c: char, d: char, e: char)
    ensures [a, b] + [c] + [d, e] == [a, b, c, d, e]
  {
  }

  /** The clock text of two two-digit numbers reads back as those numbers. */
  lemma ClockOfDigits(m: nat, sec: nat)
    requires m < 100 && sec < 100
    ensures IsClockText(ClockText(m, sec))
    ensures ClockMinutes(ClockText(m, sec)) == m && ClockSeconds(ClockText(m, sec)) == sec
  {
    var t := ClockText(m, sec);
    assert DigitValue(t[0]) * 10 + DigitValue(t[1]) == m;
    assert DigitValue(t[3]) * 10 + DigitValue(t[4]) == sec;
  }

  /** For 0 <= s < 6000 the text is `MM:SS` with the minutes and the seconds of `s`. */
  lemma FormatTimeFields(s: int)
    requires 0 <= s < 6000
    ensures IsClockText(FormatTime(s))
    ensures ClockMinutes(FormatTime(s)) == s / 60
    ensures ClockSeconds(FormatTime(s)) == s % 60 < 60
    ensures ClockMinutes(FormatTime(s)) * 60 + ClockSeconds(FormatTime(s)) == s
  {
    var m, sec := s / 60, s % 60;
    FormatTimeChars(s, m, sec);
    ClockOfDigits(m, sec);
  }

  /** A clock text is spelled by the digits of its minutes and of its seconds. */
  lemma ClockDigits(t: string)
    requires IsClockText(t)
    ensures ClockText(ClockMinutes(t), ClockSeconds(t)) == t
  {
    var m, sec := ClockMinutes(t), ClockSeconds(t);
    assert m / 10 == DigitValue(t[0]) && m % 10 == DigitValue(t[1]);
    assert sec / 10 == DigitValue(t[3]) && sec % 10 == DigitValue(t[4]);
    DigitCharOfValue(t[0]);
    DigitCharOfValue(t[1]);
    DigitCharOfValue(t[3]);
    DigitCharOfValue(t[4]);
    assert ClockText(m, sec) == [t[0], t[1], t[2], t[3], t[4]];
  }

  /** Whole minutes below 100 and seconds below 60 are written as their clock text. */
  lemma FormatTimeOfClock(m: nat, sec: nat)
    requires m < 100 && sec < 60
    ensures FormatTime(m * 60 + sec) == ClockText(m, sec)
  {
    MinutesAndSeconds(m, sec);
    FormatTimeChars(m * 60 + sec, m, sec);
  }

  /** Whole minutes and the seconds below 60 are recovered from the count they make up. */
  lemma MinutesAndSeconds(m: nat, sec: nat)
    requires sec < 60
    ensures (m * 60 + sec) / 60 == m && (m * 60 + sec) % 60 == sec
  {
  }

  /** The readings shown at rest and at the cap beside the timer. */
  lemma FormatTimeExamples()
    ensures FormatTime(0) == "00:00"
    ensures FormatTime(119) == "01:59"
    ensures FormatTime(120) == "02:00"
  {
    FormatTimeChars(0, 0, 0);
    FormatTimeChars(119, 1, 59);
    FormatTimeChars(120, 2, 0);
    assert DigitChar(0) == '0' && DigitChar(1) == '1' && DigitChar(2) == '2';
    assert DigitChar(5) == '5' && DigitChar(9) == '9';
  }

  /** A negative count (a clock set back) keeps JavaScript's signs in both fields. */
  lemma FormatTimeNegative()
    ensures FormatTime(-5) == "-1:-5"
  {
    assert -5 / 60 == -1 && JsRem(-5, 60) == -5;
    assert IntToString(-1) == "-" + NatToString(1) == "-1";
    assert IntToString(-5) == "-" + NatToString(5) == "-5";
    assert Padded(-1) == "-1" && Padded(-5) == "-5";
    assert FormatTime(-5) == "-1" + ":" + "-5";
  }

  // ---------------------------------------------------------------------------
  // The recorder's state

  /** `mediaRecorder`: none yet, recording, or stopped (`state === 'inactive'`). */
  datatype MediaState = NoRecorder | Active | Inactive

  /**
   * How far the `try` block of `startRecording` gets once permission is held: the stream or
   * the recorder could not be obtained (nothing stored); the recorder was stored but `start()`
   * threw; `start()` ran but the parent's `onStart` threw; or everything returned normally.
   */
  datatype StartStep = AcquireFailed | StartThrew | CallbackThrew | Started

  class Recorder {
    /** `timer`: whole seconds shown. */
    var timer: int
    /** `timerInterval.current !== null`. */
    var intervalRunning: bool
    /** The `startTime` the running interval measures from, in milliseconds. */
    var startTime: int
    var media: MediaState
    /** `mediaRecorder` as the running interval's callback sees it (its render's value). */
    var timerSees: MediaState
    /** `error`; `None` for null. */
    var error: Option<string>
    /** `hasPermission`: the last microphone check succeeded. */
    var hasPermission: bool

    ghost predicate Valid()
      reads this
    {
      timer < MaxSeconds
    }

    constructor ()
      ensures Valid()
      ensures timer == 0 && !intervalRunning && media == NoRecorder && error == None && !hasPermission
    {
      hasPermission := false;
      timer := 0;
      intervalRunning := false;
      startTime := 0;
      media := NoRecorder;
      timerSees := NoRecorder;
      error := None;
    }

    /**
     * `checkMicrophonePermission`, once the test request for the microphone settles: granted
     * sets the permission; denied clears it and sets the microphone error.
     */
    method CheckMicrophonePermission(granted: bool)
      modifies this`hasPermission, this`error
      ensures hasPermission == granted
      ensures error == if granted then old(error) else Some(MicError)
    {
      if granted {
        hasPermission := true;
      } else {
        error := Some(MicError);
        hasPermission := false;
      }
    }

    /**
     * `startRecording`. When `disabled` it only sets the limit error. Without permission it
     * re-checks the microphone (`micGranted`) and then returns whatever the outcome, because
     * its second test reads the `hasPermission` of the render that ran it. Otherwise `step` says
     * how far the start got. Every failure sets the start error and leaves the timer stopped,
     * but a recorder already stored stays stored: inactive when `start()` threw, active when
     * `onStart` threw. On full success the timer starts, and its callback keeps the
     * `mediaRecorder` of the render that ran this handler, which is the value from before the
     * new recorder was stored. The caller invokes this only while no recorder is active.
     */
    method StartRecording(disabled: bool, micGranted: bool, step: StartStep, now: int)
      requires Valid() && media != Active
      modifies this
      ensures Valid()
      ensures timer == old(timer)
      ensures !(!disabled && old(hasPermission) && step == Started) ==>
                intervalRunning == old(intervalRunning) && startTime == old(startTime) &&
                timerSees == old(timerSees)
      ensures disabled ==>
                error == Some(LimitError) && media == old(media) && hasPermission == old(hasPermission)
      ensures !disabled && !old(hasPermission) ==>
                hasPermission == micGranted && error == (if micGranted then old(error) else Some(MicError)) &&
                media == old(media)
      ensures !disabled && old(hasPermission) && step == AcquireFailed ==>
                error == Some(StartError) && media == old(media) && hasPermission
      ensures !disabled && old(hasPermission) && step == StartThrew ==>
                error == Some(StartError) && media == Inactive && hasPermission
      ensures !disabled && old(hasPermission) && step == CallbackThrew ==>
                error == Some(StartError) && media == Active && hasPermission
      ensures !disabled && old(hasPermission) && step == Started ==>
                error == None && media == Active && hasPermission && intervalRunning &&
                startTime == now - old(timer) * 1000 && timerSees == old(media)
    {
      if disabled {
        error := Some(LimitError);
        return;
      }
      if !hasPermission {
        CheckMicrophonePermission(micGranted);
        return;
      }
      if step == AcquireFailed {
        error := Some(StartError);
        return;
      }
      var seen := media;
      media := if step == StartThrew then Inactive else Active;
      if step != Started {
        error := Some(StartError);
        return;
      }
      StartTimer(now, seen);
      error := None;
    }

    /** `startTimer`: measure from `timer` seconds before now. */
    method StartTimer(now: int, seen: MediaState)
      requires Valid()
      modifies this`startTime, this`intervalRunning, this`timerSees
      ensures Valid()
      ensures intervalRunning && startTime == now - timer * 1000 && timerSees == seen
    {
      startTime := now - timer * 1000;
      intervalRunning := true;
      timerSees := seen;
    }

    /** `stopTimer`: clear the interval and reset the display to zero. */
    method StopTimer()
      requires Valid()
      modifies this`intervalRunning, this`timer
      ensures Valid() && !intervalRunning && timer == 0
    {
      if intervalRunning {
        intervalRunning := false;
      }
      timer := 0;
    }

    /** `stopRecording`, as the button calls it: only an active recorder is stopped. */
    method StopRecording()
      requires Valid()
      modifies this`media, this`intervalRunning, this`timer
      ensures Valid()
      ensures old(media) == Active ==> media == Inactive && !intervalRunning && timer == 0
      ensures old(media) != Active ==>
                media == old(media) && intervalRunning == old(intervalRunning) && timer == old(timer)
    {
      if media == Active {
        media := Inactive;
        StopTimer();
      }
    }

    /**
     * One interval tick as the source runs it: from 120 elapsed seconds on it calls the
     * `stopRecording` of the render that started the timer, which tests that render's
     * `mediaRecorder` (`timerSees`) instead of the current one. Since `StartRecording` only
     * runs while no recorder is active, that value is never the active recorder, so nothing
     * stops and the display stays at its last value. Were it active (an older recorder), that
     * older one would be stopped together with the timer, and the current one would go on.
     */
    method TickAsWritten(now: int)
      requires Valid() && intervalRunning
      modifies this`timerSees, this`intervalRunning, this`timer
      ensures Valid()
      ensures (now - old(startTime)) / 1000 >= MaxSeconds && old(timerSees) != Active ==>
                media == old(media) && timerSees == old(timerSees) && intervalRunning && timer == old(timer)
      ensures (now - old(startTime)) / 1000 >= MaxSeconds && old(timerSees) == Active ==>
                timerSees == Inactive && media == old(media) && !intervalRunning && timer == 0
      ensures (now - old(startTime)) / 1000 < MaxSeconds ==>
                media == old(media) && timerSees == old(timerSees) && intervalRunning &&
                timer == (now - startTime) / 1000
    {
      var elapsed := (now - startTime) / 1000;
      if elapsed >= MaxSeconds {
        if timerSees == Active {
          timerSees := Inactive;
          StopTimer();
        }
      } else {
        timer := elapsed;
      }
    }

    /**
     * One interval tick as intended: from 120 elapsed seconds on the current recorder is
     * stopped; before that the display shows the elapsed whole seconds. Either way the display
     * never reaches 120.
     */
    method Tick(now: int)
      requires Valid() && intervalRunning
      modifies this`media, this`intervalRunning, this`timer
      ensures Valid()
      ensures (now - old(startTime)) / 1000 >= MaxSeconds && old(media) == Active ==>
                media == Inactive && !intervalRunning && timer == 0
      ensures (now - old(startTime)) / 1000 >= MaxSeconds && old(media) != Active ==>
                media == old(media) && intervalRunning && timer == old(timer)
      ensures (now - old(startTime)) / 1000 < MaxSeconds ==>
                media == old(media) && intervalRunning && timer == (now - startTime) / 1000
    {
      var elapsed := (now - startTime) / 1000;
      if elapsed >= MaxSeconds {
        StopRecording();
      } else {
        timer := elapsed;
      }
    }

    /**
     * `handleFileSelect`: a picked file over 60 MiB sets the size error and goes nowhere;
     * any other picked file is handed to `onStop` unchanged (returned here).
     */
    method HandleFileSelect(file: Option<Validation.AudioFile>) returns (forwarded: Option<Validation.AudioFile>)
      modifies this`error
      ensures file.Some? && file.value.size > MaxUploadSize ==>
                forwarded == None && error == Some(SizeError)
      ensures !(file.Some? && file.value.size > MaxUploadSize) ==>
                forwarded == file && error == old(error)
    {
      forwarded := None;
      if file.Some? {
        if file.value.size > MaxUploadSize {
          error := Some(SizeError);
          return;
        }
        forwarded := file;
      }
    }
  }

  /**
   * The two-minute cut-off as the source wires it: start recording at time 0 and let the
   * interval fire at 120 s. The recorder is still active afterwards.
   */
  method AutoStopAsWritten() returns (stillRecording: bool)
    ensures stillRecording
  {
    var r := new Recorder();
    r.CheckMicrophonePermission(true);
    r.StartRecording(false, true, Started, 0);
    r.TickAsWritten(120_000);
    stillRecording := r.media == Active;
  }

  /** The same run with the intended tick: the recorder is stopped and the display reset. */
  method AutoStopIntended() returns (stopped: bool, shown: string)
    ensures stopped && shown == "00:00"
  {
    var r := new Recorder();
    r.CheckMicrophonePermission(true);
    r.StartRecording(false, true, Started, 0);
    r.Tick(120_000);
    stopped := r.media == Inactive && !r.intervalRunning;
    FormatTimeExamples();
    shown := FormatTime(r.timer);
  }
}
