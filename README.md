# RecordNow core logic in Dafny

This project models the four pieces of logic in the RecordNow voice-recording web app that do
more than render views or call the hosted backend:

- **The short-link codec** (`base62.dfy`, module `Base62`). `uuidToBase62` strips the hyphens
  from a UUID, reads the hex digits as one integer and writes that integer in base 62 over
  `0-9A-Za-z`, most significant digit first. `base62ToUuid` evaluates a token by Horner's rule,
  writes the value as 32 zero-padded lower-case hex digits and puts hyphens back in the 8-4-4-4-12
  layout of section 3 of RFC 4122. Both are loop methods proved against pure specification
  functions (`Encode`, `UuidText`, `Value62`, `Digits62`). The two round trips are proved over all
  canonical UUIDs and all canonical tokens below 2^128.
- **The anonymous recording cache** (`anonymous_storage.dfy`, module `AnonymousStorage`). This is
  the `useAnonymousStorage` hook. A `Cache` class holds the exposed list (`mem`), the persisted
  object store (`store`), the `initialized` flag and `storageError`. The store's writes are
  modelled with an explicit failure point (`failAt`) and a commit outcome (`commitOk`), and its
  reads with the order `getAll` returns. Clock readings, the fresh id and the
  outcome of reading or fetching a payload are parameters. The operations are
  `SaveToStorage`, `LoadRecordings`, `AddRecording`, `DeleteRecording`, `ClearAllRecordings`
  and `GetRecordingBlob`. Each is specified by pure functions: `Live` (the expiry filter),
  `SortNewestFirst` (a stable sort on `createdAt`), `WithoutId` and `Lookup`. Lemmas prove
  those functions' properties: membership, order, permutation, unique keys and the capacity bound.
- **The upload and duration validators** (`validation.dfy`, module `Validation`). These are
  pure early-return decisions.
- **The recorder screen's rules** (`recording_interface.dfy`, module `RecordingInterface`):
  - `formatTime` as a pure function;
  - the timer, the recorder state, the error message and the file picker as a `Recorder` class;
  - the two-minute cut-off, in both the form the component wires it and the intended form
    (see "## Findings").

`text.dfy` (module `Text`) holds the JavaScript number-to-string and `padStart` behaviour that
the codec and `formatTime` share. `wrappers.dfy` holds `Option` and `Result`.

## Model

| member | source | states |
|---|---|---|
| Base62.UuidToBase62 | src/utils/base62.js:4-19 | The result is None exactly when the hyphen-free text is not a hex numeral, which is where `BigInt` throws. Otherwise it is a token over the alphabet with no leading '0', whose base-62 value equals the hex value of the digits. The loop invariant ties the partial result to `Digits62`. |
| Base62.Encode | src/utils/base62.js:4-19 | Gives a token exactly when the hyphen-free text is a hex numeral. The token is canonical and its base-62 value is the hex value. |
| Base62.UuidText | src/utils/base62.js:28-32 | Definition of what decoding writes for a value. Its format is stated by `UuidTextFormat` and `UuidTextOverlong`. |
| Base62.Value62 | src/utils/base62.js:23-26 | Definition: the Horner value of a token. `DigitsValue` and `DigitsOfValue` prove it inverse to `Digits62`. |
| Base62.DigitIndex | src/utils/base62.js:25 | `indexOf` on the alphabet lies in [-1, 62); `DigitIndexIsPosition` states that it is the position. |
| Base62.Hyphenate | src/utils/base62.js:32 | The hyphen template adds exactly four characters; `HyphenateLowerHex` and `CanonicalUuidDigits` state its layout and inverse. |
| Base62.HexValue | src/utils/base62.js:9 | Definition: the big-endian value of a hex numeral. `HexValueBound`, `HexFixedValue` and `HexFixedOfValue` bound it and relate it to `toString(16)`. |
| Base62.Base62ToUuid | src/utils/base62.js:21-33 | The output is the hyphenated, zero-padded hex text of the token's Horner value; the loop invariant says the accumulator is the value of the prefix read so far. Below 2^128 the output is a canonical 8-4-4-4-12 lower-case UUID whose digits denote that value. |
| Base62.DigitIndexIsPosition | src/utils/base62.js:1-2 | `indexOf` on the alphabet is -1 exactly for characters outside it; for a character inside it, it gives the character's position. |
| Base62.TokenOverCharset | src/utils/base62.js:25 | A token has a digit value at every position exactly when every character is in the alphabet. |
| Base62.CharsetDigit | src/utils/base62.js:1-2 | The alphabet has 62 symbols, and the symbol written for digit d reads back as d. |
| Base62.Digits62 | src/utils/base62.js:12-16 | The numeral the encoding loop builds is empty exactly for zero. |
| Base62.DigitsValue | src/utils/base62.js:12-16 | The numeral of n is a canonical token (over the alphabet, no leading '0') whose Horner value is n. |
| Base62.DigitsOfValue | src/utils/base62.js:12-16 | A canonical token is the numeral of its own value, so encoding is injective on values. |
| Base62.DigitsLength | src/utils/base62.js:12-16 | A value below 62^k has a numeral of at most k digits. |
| Base62.UuidRange | src/utils/base62.js:9 | 32 hex digits hold exactly the values below 2^128, and 2^128 <= 62^22. |
| Base62.EncodedLength | src/utils/base62.js:9-16 | A UUID of at most 32 hex digits encodes to at most 22 characters. |
| Base62.ToHex | src/utils/base62.js:29 | `toString(16)` gives at least one lower-case hex digit, with no leading '0' for a positive value. |
| Base62.HexValueBound | src/utils/base62.js:9 | A hex numeral of k digits is below 16^k. |
| Base62.PaddedHex | src/utils/base62.js:29 | Padding `toString(16)` to k digits with '0' gives the k-digit fixed-width numeral of every value below 16^k. |
| Base62.HexFixedValue | src/utils/base62.js:29 | The fixed-width numeral of a value that fits denotes that value. |
| Base62.HexFixedOfValue | src/utils/base62.js:29 | A lower-case hex numeral is the fixed-width numeral of its own value at its own length. |
| Base62.LongHex | src/utils/base62.js:29 | A value of at least 16^k has more than k hex digits, so `padStart` cannot truncate it. |
| Base62.StripHyphens | src/utils/base62.js:6 | Removing hyphens never lengthens the text. |
| Base62.StripHyphensAppend | src/utils/base62.js:6 | Removing hyphens distributes over concatenation. |
| Base62.StripHyphensHasNone | src/utils/base62.js:6 | No hyphen is left after removal. |
| Base62.StripHyphensNone | src/utils/base62.js:6 | Text without hyphens is unchanged. |
| Base62.HyphenateLowerHex | src/utils/base62.js:32 | Hyphenating 32 lower-case hex digits gives a canonical UUID, and removing its hyphens gives the digits back. |
| Base62.CanonicalUuidDigits | src/utils/base62.js:32 | A canonical UUID carries 32 lower-case hex digits, and re-hyphenating them gives the UUID back. |
| Base62.UuidTextFormat | src/utils/base62.js:29-32 | For a value below 2^128 the decoded text is a canonical UUID whose hex digits are the value's 32-digit numeral and denote the value. |
| Base62.UuidTextOverlong | src/utils/base62.js:29-32 | From 2^128 on, the decoded text is longer than 36 characters. |
| Base62.EncodeIgnoresHyphens | src/utils/base62.js:6 | A UUID and its hyphen-free digits encode identically. |
| Base62.ZeroHexValue | src/utils/base62.js:9 | A string of '0's is hex with value 0. |
| Base62.EncodeNilUuid | src/utils/base62.js:12-18 | A UUID whose digits are all '0' encodes to the empty token. |
| Base62.DecodeEmptyToken | src/utils/base62.js:23-32 | The empty token decodes to `00000000-0000-0000-0000-000000000000`. |
| Base62.DecodeEncode | src/utils/base62.js:4-33 | Every canonical UUID encodes to a token, and decoding that token gives the UUID back. |
| Base62.EncodeDecode | src/utils/base62.js:9-32 | Every canonical token of value below 2^128 decodes to a UUID that encodes back to the token. |
| Text.NatToString | src/components/recording/RecordingInterface.jsx:131 | `toString()` of a natural number is non-empty, and one character long exactly below 10. |
| Text.NatToStringValue | src/components/recording/RecordingInterface.jsx:131 | `toString()` of a natural number is a decimal numeral without a leading zero that denotes the number. |
| Text.IntToString | src/components/recording/RecordingInterface.jsx:131 | `toString()` is never empty. Zero gives exactly "0", and a positive integer gives a decimal numeral denoting it with no leading zero. A negative integer is '-' followed by such a numeral denoting its magnitude. |
| Text.PadStart | src/components/recording/RecordingInterface.jsx:131 | `padStart` keeps the text as the suffix, fills only on the left and reaches the width unless the text is already longer. |
| Text.PadStartAppend | src/utils/base62.js:29 | Padding commutes with appending one character on the right. |
| Text.PadTwoDigits | src/components/recording/RecordingInterface.jsx:131 | A number below 100, padded to 2, is exactly its tens digit and its units digit. |
| Validation.ValidateAudioFile | src/utils/validation.jsx:2-19 | `valid` holds iff `error` is null, and iff a file is present with an accepted type and a size of at most 60 MiB. Missing file, wrong type and oversize each report their own message. |
| Validation.ValidateRecordingDuration | src/utils/validation.jsx:22-30 | `valid` holds iff `error` is null, and iff the duration is at most 120 s; otherwise the duration message is reported. |
| Validation.TypeCheckedBeforeSize | src/utils/validation.jsx:9-16 | A wrong-type, oversized file reports the type error. |
| Validation.SizeLimitInclusive | src/utils/validation.jsx:4-16 | Exactly 60 MiB passes; one byte more fails. |
| Validation.DurationLimitInclusive | src/utils/validation.jsx:23-29 | Exactly 120 s passes; anything longer fails. |
| RecordingInterface.JsRem | src/components/recording/RecordingInterface.jsx:130 | The `%` remainder takes the dividend's sign. For a non-negative dividend it is the usual remainder. For a negative one it lies in (-b, 0]. In both cases the dividend minus the remainder is a multiple of b, which fixes the value. |
| RecordingInterface.FormatTime | src/components/recording/RecordingInterface.jsx:128-132 | Definition: padded minutes, a colon and padded seconds. Its meaning is stated by `FormatTimeFields`, `FormatTimeOfClock` and `FormatTimeNegative`. |
| RecordingInterface.Padded | src/components/recording/RecordingInterface.jsx:131 | `toString().padStart(2, '0')` is at least two characters long. |
| RecordingInterface.FormatTimeFields | src/components/recording/RecordingInterface.jsx:128-132 | For 0 <= s < 6000 the text is `DD:DD`, the minutes field is s / 60, the seconds field is s % 60 < 60, and minutes * 60 + seconds == s. |
| RecordingInterface.ClockOfDigits | src/components/recording/RecordingInterface.jsx:131 | The clock text of two two-digit numbers reads back as those numbers. |
| RecordingInterface.ClockDigits | src/components/recording/RecordingInterface.jsx:131 | Every `DD:DD` text is the clock text of the minutes and seconds it reads as. |
| RecordingInterface.FormatTimeOfClock | src/components/recording/RecordingInterface.jsx:128-132 | Every `MM:SS` with minutes below 100 and seconds below 60 is what `formatTime` shows for m * 60 + s. So the function is onto the clock texts with seconds below 60. |
| RecordingInterface.FormatTimeChars | src/components/recording/RecordingInterface.jsx:128-132 | For a non-negative count with two-digit fields, the text is the five characters of its minutes and seconds. |
| RecordingInterface.MinutesAndSeconds | src/components/recording/RecordingInterface.jsx:129-130 | Minutes and seconds below 60 are recovered from the count they make up. |
| RecordingInterface.FormatTimeExamples | src/components/recording/RecordingInterface.jsx:128-132 | 0 shows "00:00", 119 shows "01:59", and the cap 120 shows "02:00". |
| RecordingInterface.FormatTimeNegative | src/components/recording/RecordingInterface.jsx:129-131 | A negative count keeps JavaScript's signs: -5 shows "-1:-5". |
| RecordingInterface.Recorder.constructor | src/components/recording/RecordingInterface.jsx:12-17 | The initial state has timer 0, no interval, no recorder and no error. |
| RecordingInterface.Recorder.CheckMicrophonePermission | src/components/recording/RecordingInterface.jsx:51-62 | A granted microphone sets the permission and leaves the error alone. A denied one clears the permission and sets the microphone error. |
| RecordingInterface.Recorder.StartRecording | src/components/recording/RecordingInterface.jsx:64-98 | When disabled, only the limit error is set; no recorder is created and no timer is started. Without permission, the microphone is re-checked and the handler returns with no recorder whatever the outcome: a denial sets the microphone error, a grant changes only the permission. With permission, every failure sets the start error and starts no timer. When the stream or the recorder cannot be obtained, the recorder state stays as it was. When `start()` throws, the stored recorder is there but inactive. When `onStart` throws, the stored recorder is active. A full success makes the recorder active, starts the timer from the shown value and clears the error. On every path but full success the interval, its start time and the recorder its callback sees are unchanged, and the shown time never changes. |
| RecordingInterface.Recorder.StartTimer | src/components/recording/RecordingInterface.jsx:108-110 | The interval runs, measuring from `timer` seconds before now. |
| RecordingInterface.Recorder.StopTimer | src/components/recording/RecordingInterface.jsx:120-126 | The interval is cleared and the timer is reset to 0. |
| RecordingInterface.Recorder.StopRecording | src/components/recording/RecordingInterface.jsx:100-106 | An active recorder becomes inactive with the timer stopped and reset; otherwise nothing changes. |
| RecordingInterface.Recorder.TickAsWritten | src/components/recording/RecordingInterface.jsx:108-118 | Below 120 elapsed seconds the tick shows the elapsed seconds. From 120 on it acts only if the recorder the starting render saw was active: that recorder is stopped with the timer, and the current recorder is left as it is. Otherwise everything stays unchanged. The shown timer stays below 120 in all cases. |
| RecordingInterface.Recorder.Tick | src/components/recording/RecordingInterface.jsx:108-118 | Below 120 elapsed seconds the tick shows the elapsed seconds. From 120 on an active recorder is stopped and the timer reset, and with no active recorder nothing changes. The shown timer never reaches 120. |
| RecordingInterface.Recorder.HandleFileSelect | src/components/recording/RecordingInterface.jsx:134-143 | A picked file over 60 MiB sets the size error and is not forwarded. Any other pick is forwarded unchanged, with the error untouched. |
| RecordingInterface.AutoStopAsWritten | src/components/recording/RecordingInterface.jsx:100-118 | Starting at time 0 and ticking at 120 s leaves the recorder active. |
| RecordingInterface.AutoStopIntended | src/components/recording/RecordingInterface.jsx:100-118 | With the intended tick, the same run stops the recorder and shows "00:00". |
| AnonymousStorage.LimitMessage | src/hooks/useAnonymousStorage.jsx:140 | The limit error reads "Recording limit reached (10 recordings maximum)". |
| AnonymousStorage.Message | src/hooks/useAnonymousStorage.jsx:128-217 | Definition: the message each thrown error carries; `LimitMessage` spells out the limit one. |
| AnonymousStorage.Filter | src/hooks/useAnonymousStorage.jsx:69-72 | A filter never lengthens the list. |
| AnonymousStorage.FilterMembers | src/hooks/useAnonymousStorage.jsx:69-72 | A record survives a filter iff it was in the list and is accepted. |
| AnonymousStorage.FilterAll | src/hooks/useAnonymousStorage.jsx:75 | Nothing is dropped iff every record is accepted, and then the list is unchanged. |
| AnonymousStorage.FilterMultiset | src/hooks/useAnonymousStorage.jsx:69-72 | A filter keeps every copy of an accepted record and no copy of a rejected one. |
| AnonymousStorage.IsLive | src/hooks/useAnonymousStorage.jsx:69-72 | Definition of the expiry test: an `expiresAt` strictly after now. `LiveMembers` states the filter built on it. |
| AnonymousStorage.Live | src/hooks/useAnonymousStorage.jsx:134-137 | The unexpired records never outnumber the list. |
| AnonymousStorage.LiveMembers | src/hooks/useAnonymousStorage.jsx:134-137 | The unexpired records are exactly those with an `expiresAt` strictly after now (a record at its expiry instant is dropped). None are dropped iff all are unexpired. |
| AnonymousStorage.InsertMembers | src/hooks/useAnonymousStorage.jsx:164-166 | Inserting a record adds exactly that record to the multiset. |
| AnonymousStorage.InsertSorted | src/hooks/useAnonymousStorage.jsx:164-166 | Inserting into a newest-first list keeps it newest first. |
| AnonymousStorage.InsertAtEnd | src/hooks/useAnonymousStorage.jsx:164-166 | A record no newer than all others goes last, as a stable sort places it. |
| AnonymousStorage.SortPermutes | src/hooks/useAnonymousStorage.jsx:164-166 | The sort is a permutation. |
| AnonymousStorage.SortOrders | src/hooks/useAnonymousStorage.jsx:164-166 | The sort's output is newest first. |
| AnonymousStorage.SortSpec | src/hooks/useAnonymousStorage.jsx:164-166 | The sort orders by `createdAt`, newest first, and is a permutation of its input. |
| AnonymousStorage.SortSorted | src/hooks/useAnonymousStorage.jsx:164-166 | A list already newest first is left as it is. |
| AnonymousStorage.Insert | src/hooks/useAnonymousStorage.jsx:164-166 | Inserting adds exactly one element; `InsertMembers` and `InsertSorted` state where it goes. |
| AnonymousStorage.SortNewestFirst | src/hooks/useAnonymousStorage.jsx:164-166 | The sort keeps the length; `SortSpec` states order and permutation. |
| AnonymousStorage.ConsUnique | src/hooks/useAnonymousStorage.jsx:32 | A record with a new key, put in front, keeps keys unique. |
| AnonymousStorage.ConsSorted | src/hooks/useAnonymousStorage.jsx:73 | A record at least as new as every other, put in front, keeps the list newest first. |
| AnonymousStorage.FilterUnique | src/hooks/useAnonymousStorage.jsx:32 | Filtering keeps keys unique. |
| AnonymousStorage.FilterSorted | src/hooks/useAnonymousStorage.jsx:182 | Filtering keeps a list newest first. |
| AnonymousStorage.InsertUnique | src/hooks/useAnonymousStorage.jsx:164-166 | Inserting a record with a new key keeps keys unique. |
| AnonymousStorage.SortUnique | src/hooks/useAnonymousStorage.jsx:164-166 | Sorting cannot create a repeated key. |
| AnonymousStorage.AppendUnique | src/hooks/useAnonymousStorage.jsx:164 | Appending a record with a new key keeps keys unique. |
| AnonymousStorage.RemoveUnique | src/hooks/useAnonymousStorage.jsx:32 | Dropping one record from a list with unique keys keeps them unique and drops that key. |
| AnonymousStorage.PermutationUnique | src/hooks/useAnonymousStorage.jsx:62 | Any reordering of a list with unique keys, such as the order `getAll` reads, has unique keys. |
| AnonymousStorage.LiveMultiset | src/hooks/useAnonymousStorage.jsx:69-72 | Filtering two reorderings of one list gives reorderings of each other. |
| AnonymousStorage.LookupSpec | src/hooks/useAnonymousStorage.jsx:204 | `find` returns a record iff one has the id, and then it returns the first such record. |
| AnonymousStorage.Lookup | src/hooks/useAnonymousStorage.jsx:204 | A found record is in the list and carries the id. |
| AnonymousStorage.WithoutIdSpec | src/hooks/useAnonymousStorage.jsx:182 | Deleting keeps exactly the records with another id, leaves none with the id, and is the identity when the id is absent. It keeps keys unique and the order newest first. |
| AnonymousStorage.WithoutIdIdempotent | src/hooks/useAnonymousStorage.jsx:182 | Deleting the same id twice is deleting it once. |
| AnonymousStorage.WithoutId | src/hooks/useAnonymousStorage.jsx:182 | Deleting never lengthens the list; `WithoutIdSpec` states which records stay. |
| AnonymousStorage.LoadedSpec | src/hooks/useAnonymousStorage.jsx:69-80 | The loaded list is newest first and holds exactly the stored records that are unexpired. It is as long as the store iff none expired, and it keeps keys unique. |
| AnonymousStorage.Loaded | src/hooks/useAnonymousStorage.jsx:69-73 | The loaded list is never longer than the store; `LoadedSpec` states its contents and order. |
| AnonymousStorage.LoadedAnyOrder | src/hooks/useAnonymousStorage.jsx:60-73 | Whatever order the store is read in, the same records are loaded with the same multiplicity, and keys stay unique. |
| AnonymousStorage.NewRecordingDefaults | src/hooks/useAnonymousStorage.jsx:151-162 | Without metadata the new record has the fresh id, the payload and its size, and the name "Recording k+1". It is created now and is unexpired until thirty days after the payload was read, then expired. |
| AnonymousStorage.NewRecording | src/hooks/useAnonymousStorage.jsx:151-162 | Definition of the new record, with caller metadata overriding each default; `NewRecordingDefaults` states the defaults. |
| AnonymousStorage.AddedBounded | src/hooks/useAnonymousStorage.jsx:134-168 | Under the limit, the list an add saves has at most 10 records, is newest first and contains the new record. |
| AnonymousStorage.AddedUnique | src/hooks/useAnonymousStorage.jsx:154-168 | The list an add saves has unique keys when the new id is not already live. |
| AnonymousStorage.Cache.constructor | src/hooks/useAnonymousStorage.jsx:12-15 | The hook starts with an empty list, not initialised and with no error, over the store's existing records. |
| AnonymousStorage.Cache.Open | src/hooks/useAnonymousStorage.jsx:21-45 | A successful open marks the hook initialised; a failed one sets the initialisation error and nothing else. |
| AnonymousStorage.Cache.SaveToStorage | src/hooks/useAnonymousStorage.jsx:95-126 | The save succeeds iff no request fails and the list's keys are unique. On success the exposed list equals the list and the error is cleared, because both are published before the commit. The store equals the list if the commit succeeds and keeps its old records if the commit fails. When a request fails, list and store are unchanged and the save error is set. |
| AnonymousStorage.Cache.LoadRecordings | src/hooks/useAnonymousStorage.jsx:56-93 | The store is read in any order (`getAll` returns key order). A failed read sets the load error. If nothing expired, the unexpired records read are shown newest first. Otherwise they are saved; a failed request changes nothing except the save error, and a failed commit leaves the store as it was. |
| AnonymousStorage.Cache.AddRecording | src/hooks/useAnonymousStorage.jsx:128-174 | The outcomes are "not initialised", the limit error at 10 unexpired exposed records, and a failed add when the read fails. Each of these changes nothing. Otherwise the exposed list becomes the unexpired records plus the new one, newest first, and the new record is returned; the store becomes that list unless the commit fails. A failed request surfaces as a failed add, with both lists unchanged and the save error set. |
| AnonymousStorage.Cache.DeleteRecording | src/hooks/useAnonymousStorage.jsx:176-188 | Before initialisation nothing changes. Otherwise the list without the id is published and, unless the commit fails, stored. A failed request changes nothing but the error. |
| AnonymousStorage.Cache.ClearAllRecordings | src/hooks/useAnonymousStorage.jsx:190-201 | Before initialisation nothing changes. Otherwise the exposed list becomes empty, and so does the store unless the commit fails. A failed clear request changes nothing but the error. |
| AnonymousStorage.Cache.GetRecordingBlob | src/hooks/useAnonymousStorage.jsx:203-217 | "Recording not found" iff no exposed record has the id or the first one with it lacks a payload. When that first record has a payload, a successful fetch returns exactly that payload's bytes and a failed fetch reports the load-data error. |
| AnonymousStorage.DeleteAbsentKeepsList | src/hooks/useAnonymousStorage.jsx:176-188 | After a load, deleting an id no live record carries leaves the exposed list as it was. |

## Left out

- Opening the database, its upgrade step and its indexes (src/hooks/useAnonymousStorage.jsx:21-45) are browser I/O. `Cache.Open` only records the outcome.
- The React `mounted` flag and the cleanup on unmount are not modelled, nor is the ordering of concurrent asynchronous calls. In particular, a second operation is not interleaved with a pending save.
- `loadRecordings` calls `saveToStorage` without awaiting it, so its rejection goes unhandled. The model runs the save to completion and keeps only the state it leaves.
- `FileReader.readAsDataURL` and `fetch(dataURL).blob()` are foreign code. The payload is kept as its bytes only, and each conversion is a success flag (`readOk`, `fetchOk`). Its MIME type is not modelled, because the data-URL round trip may rewrite it (the parameter spacing of the recorder's type, or an empty type), so only the bytes come back exact.
- `uuidv4` is a parameter (`freshId`).
- `new Date()` and `setDate(+30)` are not modelled. Clock readings are integer milliseconds, and thirty days is a fixed `Retention` of 30 × 24 h. Calendar and daylight-saving effects are left out.
- ISO date strings are not modelled. `createdAt` and `expiresAt` are instants, and a missing `expiresAt` is `None`.
- `checkStorageQuota` (src/utils/validation.jsx:33-50) works on floating-point storage estimates from a browser API.
- MediaRecorder, `getUserMedia`, the test stream for microphone permission and WaveSurfer (src/components/recording/RecordingInterface.jsx:22-62, 76-91) are not modelled. Whether the microphone was granted is the `micGranted` parameter of `StartRecording`, and how far its start got is the `step` parameter: stream or recorder not obtained, `start()` threw after the recorder was stored, the parent's `onStart` threw, or full success.
- RecordingInterface.Recorder.StartRecording: requires that no recorder is active. The handler has no such guard; the button calls it only while the `isRecording` prop is false (src/components/recording/RecordingInterface.jsx:152). The two pages that render it, src/pages/RecordPage.tsx and src/pages/RecordingStudio.jsx, never set that prop to true, so a second start during a recording is possible there, and it is not modelled. A second recorder and a second interval would then run beside the first.
- `chunks` collection and the `onStop` blob built when the media recorder stops are media plumbing and are not modelled.
- Validation.ValidateRecordingDuration: takes a `real`. Non-number inputs are not modelled. NaN and `undefined` compare false with 120 and are accepted, while numeric strings compare by their numeric value.
- AnonymousStorage.NewRecording: metadata may only replace the six record fields; keys other than those are not modelled.
- Base62.UuidToBase62: `BigInt` also accepts trailing whitespace after the digits, which the model treats as a syntax error (None). Leading whitespace ends up after `0x` and is a syntax error in both.
- Base62.Base62ToUuid: requires every character of the token to be in the alphabet. For a foreign character the source adds `indexOf`'s -1 as a digit without any error, and that case is not modelled.
- AnonymousStorage.SortNewestFirst: that equal timestamps keep their input order (stability) is built into the definition, not stated as a separate lemma.
- AnonymousStorage.Cache.AddRecording: the capacity is checked against the exposed list, not the store. There is no check for an empty payload. Caller metadata can replace the id, the name and the expiry. These gaps of the source are kept as written.
- AnonymousStorage.Cache.GetRecordingBlob: does not re-check expiry at call time, as in the source.
- AnonymousStorage.Cache.LoadRecordings: the order `getAll` returns is a parameter, any reordering of the store, not the ascending key order the database actually uses. So among records with equal `createdAt`, the loaded order is not pinned down.
- Text.NatToString: writes every natural number in plain decimal. JavaScript switches to exponent notation from 10^21 on; the timer shows only values below 120.
- AnonymousStorage.Cache.SaveToStorage: a failing request aborts the transaction, so the store is modelled as keeping its old records rather than a partial write. A key already present in the transaction makes `add` fail just as an injected failure does. A commit failure is the `commitOk` outcome, and nothing in the hook observes it.

## Findings

| source | as written | input that shows it | evidently intended | confidence | as-written member | corrected member |
|---|---|---|---|---|---|---|
| src/components/recording/RecordingInterface.jsx:108-118 | The interval callback calls the `stopRecording` closure of the render that ran `startRecording`. That render's `mediaRecorder` is the value from before the new recorder was stored, so it is never active, and the cut-off at 120 s stops nothing (lines 100-106). This assumes `startRecording` runs only while no recorder is active, as the button's `isRecording` guard intends (line 152), and that the parent passes an `onStart` that returns normally (line 91); the two pages that render it, src/pages/RecordPage.tsx and src/pages/RecordingStudio.jsx, pass none, so there every start throws at that call, leaves the recorder active without a timer and sets the start error. | Start recording at time 0, then tick the interval at 120 000 ms: the recorder is still active and the timer stays at its last value. | From 120 elapsed seconds on, the current recorder is stopped and the timer reset, so a recording never runs past two minutes. | not executed | RecordingInterface.Recorder.TickAsWritten, RecordingInterface.AutoStopAsWritten | RecordingInterface.Recorder.Tick, RecordingInterface.AutoStopIntended |
