/**
 * Upload and duration validators: early-return decisions over a file's MIME type, its byte
 * size and a recording's duration in seconds. Each yields `{valid, error}`.
 */
module Validation {
  import opened Wrappers

  /** The fields of a browser `File` the validator reads. */
  datatype AudioFile = AudioFile(mimeType: string, size: nat)

  /** The `{ valid, error }` object literal; `None` stands for `error: null`. */
  datatype Verdict = Verdict(valid: bool, error: Option<string>)

  const ValidTypes: seq<string> := ["audio/mp3", "audio/wav", "audio/m4a"]

  /** 60 MiB. */
  const MaxFileSize: nat := 60 * 1024 * 1024

  /** Two minutes, in seconds. */
  const MaxDuration: real := 120.0

  const NoFileError := "No file selected"
  const TypeError := "Invalid file type. Please upload MP3, WAV, or M4A files only."
  const SizeError := "File size exceeds 60MB limit"
  const DurationError := "Recording exceeds maximum duration of 2 minutes"

  /**
   * `validateAudioFile`: a missing file, then the type, then the size are checked, in that
   * order, and the first failing check names the error.
   */
  function ValidateAudioFile(file: Option<AudioFile>): (v: Verdict)
    ensures v.valid <==> v.error == None
    ensures v.valid <==>
              file.Some? && file.value.mimeType in ValidTypes && file.value.size <= MaxFileSize
    ensures file.None? ==> v.error == Some(NoFileError)
    ensures file.Some? && file.value.mimeType !in ValidTypes ==> v.error == Some(TypeError)
    ensures file.Some? && file.value.mimeType in ValidTypes && file.value.size > MaxFileSize ==>
              v.error == Some(SizeError)
  {
    match file
    case None => Verdict(false, Some(NoFileError))
    case Some(f) =>
      if f.mimeType !in ValidTypes then Verdict(false, Some(TypeError))
      else if f.size > MaxFileSize then Verdict(false, Some(SizeError))
      else Verdict(true, None)
  }

  /** `validateRecordingDuration`: anything up to and including two minutes is accepted. */
  function ValidateRecordingDuration(duration: real): (v: Verdict)
    ensures v.valid <==> v.error == None
    ensures v.valid <==> duration <= MaxDuration
    ensures !v.valid ==> v.error == Some(DurationError)
  {
    if duration > MaxDuration then Verdict(false, Some(DurationError)) else Verdict(true, None)
  }

  /** The type check comes first: a wrong-type file is reported as such whatever its size. */
  lemma TypeCheckedBeforeSize(f: AudioFile)
    requires f.mimeType !in ValidTypes && f.size > MaxFileSize
    ensures ValidateAudioFile(Some(f)).error == Some(TypeError)
  {
  }

  /** The size limit is inclusive: a file of exactly 60 MiB of an accepted type passes. */
  lemma SizeLimitInclusive(mimeType: string)
    requires mimeType in ValidTypes
    ensures ValidateAudioFile(Some(AudioFile(mimeType, 60 * 1024 * 1024))).valid
    ensures !ValidateAudioFile(Some(AudioFile(mimeType, 60 * 1024 * 1024 + 1))).valid
  {
  }

  /** The duration limit is inclusive: exactly 120 seconds passes, anything longer fails. */
  lemma DurationLimitInclusive(d: real)
    requires d > 120.0
    ensures ValidateRecordingDuration(120.0).valid
    ensures !ValidateRecordingDuration(d).valid
  {
  }
}
