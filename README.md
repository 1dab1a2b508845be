# Video dating app: a verified model of its core logic

The system has two parts:

- A small Express backend. It accepts a video upload, registers a transcoding job, drives an
  ffmpeg transcode, and serves the job's status and its output file.
- A React Native client. It holds a profile form with validation and sanitising, records
  answers to randomly drawn questions, and keeps a local list of recording metadata. It also
  has a swipe-based dating screen backed by Firestore, and a gallery of the recorded videos.

This project models the logic of both sides in Dafny and proves what that logic promises:

- **Backend job registry.** `VideoService` is a class over a map from video id to job record.
  Each operation states its new map, and every keyed operation leaves all other ids unchanged.
  Lemmas prove that the lifecycle `processing` → `completed`/`failed` keeps records well formed
  and show where nothing guards it.
- **Request handlers.** The handlers in `VideoRoutes` answer upload, status, download and
  delete with a status code and a body, or with the file to send.
- **Encoder events.** The progress, end and error events of the encoder are inputs to
  `CompressionService`. Lemmas cover whole runs of events.
- **Upload middleware.** It decides which uploads the file filter accepts, and under which
  name and where an upload is stored.
- **Profile form.** The per-field rules check in order and report the first failure's message.
  The model covers the whole-form and single-field validators, the sanitiser, trimming before
  save, change detection, and the completion percentage.
- **Question selection.** Fisher–Yates shuffles a copy of the question list, and the first
  `count` questions are taken. A picker for the next question avoids the questions shown in
  the current session.
- **Question timings and stored metadata.**
  - The timings cover interval look-up, progress, clock formatting with a proved read-back,
    validation, ordering, and the next and previous question.
  - The metadata store builds back-to-back intervals of 3.333 s.
  - Append, look-up, merge, delete, clear and migrate work on a stored list.
- **Dating.** `getProfiles` filters profiles and caps them at 20. A swipe is stored under
  (user, target). A match is the mutual-like rule with a sorted user pair. The dating
  screen's store keeps a cursor and a swipe history.
- **Card formatters and gallery.** The video card has small formatters. The gallery store
  keeps a list.

Outside effects become inputs:

- the clock, `Math.random` (a real in [0, 1) per call), uuid and random name parts, and
  thumbnails;
- the device description;
- the outcome of every Firestore, AsyncStorage, media-library and file-system call (a flag or
  a `Result`);
- the events the encoder reports.

JavaScript's own behaviour is written out where the code depends on it, in the modules
`JsText` and `NodePath`:

- `trim` over JavaScript white space;
- `parseInt`, including its sign, `0x` prefix and stopping at the first non-digit;
- `toLowerCase`/`toUpperCase`;
- `padStart`, `slice` with a negative end, and `%` taking the sign of the dividend;
- truthiness;
- POSIX `path.basename`, `path.extname` and `path.join`.

Where the code and the intended design differ, the model follows the code:

- **Rejected upload type.** A file type the filter rejects is answered with 500, not 400. The
  middleware raises a plain `Error`, which the error handler (backend/src/middleware/errorHandler.ts:11)
  answers with 500 because the error has no status.
- **Unguarded transitions.** Progress values are not clamped. A completed job can still be
  failed or moved off 100 percent. `createJob` overwrites an existing id.
- **`sanitizeInput`.** It cuts `about` and `interests` after trimming, so the result can end in
  a space. Age accepts whatever `parseInt` reads: `"0x20"` is 32 and `"25 år"` is 25.
- **`sanitizeProfile`.** It keeps a numeric age of 0. Only string ages map 0 and NaN to absent.
- **`getAllMetadata`.** It turns a failed read into an empty list. A later save, delete or
  migrate then writes back a list that lacks the records that could not be read.

## Model

| member | source | states |
|---|---|---|
| VideoService.WithProgress | backend/src/services/videoService.ts:25-31 | the new progress is stored as given, unclamped, and no other field of the job changes |
| VideoService.AsCompleted | backend/src/services/videoService.ts:33-43 | status completed, progress 100, output file is the basename of the output path, output size as given, completion time set; id, original file and size, creation time and error kept |
| VideoService.AsFailed | backend/src/services/videoService.ts:45-52 | status failed with the message as error; progress, file fields and all else untouched |
| VideoService.StoreSameExcept | backend/src/services/videoService.ts:17 | storing under one id leaves every other id's entry as it was |
| VideoService.NewJob | backend/src/services/videoService.ts:8-16 | the record createJob stores: the given id, file, size and creation time, processing at progress 0, no output or error yet, and so satisfying the lifecycle invariant |
| VideoService.TerminalTransitionsWellFormed | backend/src/services/videoService.ts:33-52 | completing or failing a well-formed processing job gives a well-formed job |
| VideoService.FailAfterCompleteKeepsOutput | backend/src/services/videoService.ts:45-52 | nothing prevents failing a completed job, which then is failed yet still names an output file (not well formed) |
| VideoService.ProgressAfterCompleteLeaves100 | backend/src/services/videoService.ts:25-31 | nothing prevents a progress update on a completed job, which then sits at another percentage |
| VideoService.VideoService.constructor | backend/src/services/videoService.ts:5 | the registry starts empty |
| VideoService.VideoService.CreateJob | backend/src/services/videoService.ts:7-19 | stores a processing job at 0 percent with the given file and size under id, replacing any earlier entry; other ids unchanged |
| VideoService.VideoService.GetJob | backend/src/services/videoService.ts:21-23 | returns the stored record exactly when id is present, and nothing otherwise |
| VideoService.VideoService.UpdateProgress | backend/src/services/videoService.ts:25-31 | no-op on an absent id; on a present id only progress changes; other ids unchanged |
| VideoService.VideoService.CompleteJob | backend/src/services/videoService.ts:33-43 | no-op on an absent id; otherwise the job becomes its completed form; other ids unchanged |
| VideoService.VideoService.FailJob | backend/src/services/videoService.ts:45-52 | no-op on an absent id; otherwise the job becomes its failed form; other ids unchanged |
| VideoService.VideoService.DeleteJob | backend/src/services/videoService.ts:54-56 | the id is absent afterwards, exactly that id is removed, and deleting an absent id changes nothing |
| CompressionService.OutputOptions | backend/src/services/compressionService.ts:16-22 | six raw output options |
| CompressionService.BuildCommand | backend/src/services/compressionService.ts:13-26 | the command reads the input path, writes the output path and carries the output options |
| CompressionService.CommandAlwaysCarriesFixedOptions | backend/src/services/compressionService.ts:13-26 | whatever the options, the command scales to 480 wide with an even height, moves the index to the front, uses yuv420p, and carries the caller's codecs, bitrates, preset and crf |
| CompressionService.SizeIsNotForwarded | backend/src/services/compressionService.ts:13-26 | changing the configured frame size does not change the command |
| CompressionService.ProgressRunKeepsProcessing | backend/src/services/compressionService.ts:32-35 | any run of start and progress events keeps a processing job processing and well formed, changing only its progress |
| CompressionService.RunThatEndsCompletes | backend/src/services/compressionService.ts:32-40 | progress followed by the end event leaves the job completed and well formed at 100 with the output's basename and size |
| CompressionService.RunThatErrsFails | backend/src/services/compressionService.ts:32-44 | progress followed by an error leaves the job failed and well formed, carrying the encoder's message and no output file |
| CompressionService.ProgressStaysInRange | backend/src/services/compressionService.ts:32-35 | a job starting in 0..100 stays in 0..100 when every reported percentage is in 0..100 (the bridge itself does not clamp) |
| CompressionService.ProgressIsNotClamped | backend/src/services/compressionService.ts:33 | percentages of 150 and -3 are stored as reported |
| CompressionService.ApplyEvent | backend/src/services/compressionService.ts:28-45 | one event's effect on a registered job: start changes nothing; progress sets the reported percentage (0 when absent) and keeps status and error; end completes at 100 with the output size; error fails with the message and keeps progress; no event changes id, original file, size or creation time, and only end sets output fields |
| CompressionService.ApplyEvents | backend/src/services/compressionService.ts:28-45 | a run of events in delivery order never changes the job's id, original file, size or creation time, and without an end event never sets the output file |
| CompressionService.ApplyEventsAppend | backend/src/services/compressionService.ts:28-46 | applying two runs of events in turn is applying their concatenation |
| CompressionService.CompressionService.Compress | backend/src/services/compressionService.ts:6-26 | starting a transcode hands the encoder the built command, with the scale filter and pixel format |
| CompressionService.CompressionService.HandleEvent | backend/src/services/compressionService.ts:28-46 | progress updates the job with the reported percentage (0 when absent), end completes it and resolves with the size, error fails it and rejects with the message; a deleted job is not recreated; other ids unchanged |
| NodePath.Basename | backend/src/services/videoService.ts:38 | the basename holds no separator and is no longer than the path |
| NodePath.Extname | backend/src/middleware/upload.ts:11 | the extension is empty or starts with its only dot, has no separator, and ends the basename |
| NodePath.BasenameOfJoin | backend/src/routes/videoRoutes.ts:20 | the file name a path was joined from is its basename again |
| NodePath.ExtnameOfStemAndExtension | backend/src/middleware/upload.ts:9-13 | a stem with no dot or separator followed by an extension has exactly that extension |
| UploadMiddleware.FileFilter | backend/src/middleware/upload.ts:19-25 | accepted exactly when the lower-cased extension is among the allowed ones; a rejection names that extension |
| UploadMiddleware.AcceptedIffVideoSuffix | backend/src/config/index.ts:23 | accepted exactly when the name ends in .mp4, .mov or .avi in any letter case after at least one more character |
| UploadMiddleware.ExtensionIsSuffix | backend/src/middleware/upload.ts:20-21 | for a four-character extension, comparing the lower-cased extension is comparing the end of the file name |
| UploadMiddleware.UniqueName | backend/src/middleware/upload.ts:10 | the stem is the decimal time, a dash and the random part; with a base-36 random part it holds no `.` and no `/` |
| UploadMiddleware.StoredFilename | backend/src/middleware/upload.ts:9-13 | the stored name is the unique stem followed by the client's extension with its letter case kept |
| UploadMiddleware.StoredPath | backend/src/middleware/upload.ts:6-8 | every stored file lies in the upload directory |
| UploadMiddleware.StoredNameKeepsExtension | backend/src/middleware/upload.ts:9-25 | the stored name has the original's extension, so it passes the filter exactly when the original did |
| VideoRoutes.Status | backend/src/routes/videoRoutes.ts:52-62 | 404 exactly for an unknown id; otherwise 200 with the job's status, progress and error |
| VideoRoutes.Download | backend/src/routes/videoRoutes.ts:65-82 | 404 for an unknown id, 400 when not completed; a file is served only for a completed job, and it is the compressed directory joined with its output file |
| VideoRoutes.DownloadOfWellFormed | backend/src/routes/videoRoutes.ts:65-82 | a well-formed completed job is always served as a file |
| VideoRoutes.DownloadServesEncoderOutput | backend/src/routes/videoRoutes.ts:20-74 | the file served for a transcoded upload is the file the encoder was told to write |
| VideoRoutes.UnlinkAttempts | backend/src/routes/videoRoutes.ts:91-100 | the staged upload is unlinked first when named; a failed first unlink skips the second; the output file is unlinked only when named; nothing else is ever unlinked, and nothing at all when neither file is named |
| VideoRoutes.VideoRoutes.constructor | backend/src/routes/videoRoutes.ts:10 | the router uses the given registry and compressor |
| VideoRoutes.VideoRoutes.Upload | backend/src/routes/videoRoutes.ts:13-49 | no file: 400 and no job; a rejected type: 500 with the filter's message and no job; otherwise a processing job under the new id, the transcode started from the stored path to `<id>_compressed.mp4`, and 202 with that id; other ids unchanged |
| VideoRoutes.VideoRoutes.Delete | backend/src/routes/videoRoutes.ts:85-104 | 404 for an unknown id; otherwise the unlinks attempted in order, the job removed and 200, whether or not unlinking failed |
| VideoRoutes.VideoRoutes.DeleteTwice | backend/src/routes/videoRoutes.ts:86-102 | deleting the same id twice answers 404 the second time, and the status handler then answers 404 |
| VideoRoutes.VideoRoutes.UploadAndTranscode | backend/src/routes/videoRoutes.ts:13-82 | an accepted upload reads processing at 0, after progress and the end event reads completed at 100, and downloads the encoder's output |
| ProfileValidation.EveryFieldHasARule | mobile/src/utils/profileValidation.ts:11-64 | every field of the form has a rule in the table |
| ProfileValidation.ValidateGender | mobile/src/utils/profileValidation.ts:14-18 | valid exactly for Man, Kvinna or Annat; a blank value gets the required message first |
| ProfileValidation.ValidateAge | mobile/src/utils/profileValidation.ts:22-29 | valid exactly when non-blank and parseInt reads 18..100; messages in the order blank, NaN, under 18, over 100 |
| ProfileValidation.LengthRule | mobile/src/utils/profileValidation.ts:33-62 | valid exactly when the trimmed length is within bounds; required, too-short and too-long messages in that order |
| ProfileValidation.Rule | mobile/src/utils/profileValidation.ts:11-64 | a message is never empty; location and occupation need 2, interests 5, about 10..500 trimmed characters |
| ProfileValidation.ValidateProfileForm | mobile/src/utils/profileValidation.ts:69-80 | an entry for a field exactly when its rule fails, holding the rule's message; empty exactly when every rule passes |
| ProfileValidation.ErrorsOfWholeTable | mobile/src/utils/profileValidation.ts:69-80 | once every rule of the table has run, the errors hold exactly the failing fields with their rules' messages, and are empty exactly when every rule passes |
| ProfileValidation.FindRule | mobile/src/utils/profileValidation.ts:89 | the index found holds the field, and none is found exactly when the table lacks it |
| ProfileValidation.ValidateField | mobile/src/utils/profileValidation.ts:85-91 | a single field is validated by its own rule |
| ProfileValidation.SanitizeInput | mobile/src/utils/profileValidation.ts:96-119 | trimmed except for about and interests; an age keeps only its digits; gender is only trimmed |
| ProfileValidation.SanitizeInputCapitalises | mobile/src/utils/profileValidation.ts:106-110 | location and occupation keep the trimmed text with only the first character upper-cased, and are empty exactly when blank |
| ProfileValidation.SanitizeInputCuts | mobile/src/utils/profileValidation.ts:111-115 | interests and about keep a prefix of the trimmed text of at most 200 and 500 characters |
| ProfileValidation.SliceTo | mobile/src/utils/profileValidation.ts:114 | the slice is a prefix of length min(length, max) |
| ProfileValidation.CapitalizeFirst | mobile/src/utils/profileValidation.ts:109 | the first character upper-cased and the rest kept; a trimmed string stays trimmed |
| ProfileValidation.OnlyDigitsOfTrim | mobile/src/utils/profileValidation.ts:98-105 | removing non-digits after trimming is removing them from the raw value |
| ProfileValidation.AgeOfNumber | mobile/src/utils/profileValidation.ts:22-29 | a whole number written out is a valid age exactly when it is in 18..100 |
| ProfileValidation.AgeAcceptsHexadecimal | mobile/src/utils/profileValidation.ts:24 | "0x20" reads as 32 and is a valid age |
| ProfileValidation.AgeAcceptsTrailingText | mobile/src/utils/profileValidation.ts:24 | "25 år" reads as 25 and is a valid age |
| ProfileValidation.AgeRejectsText | mobile/src/utils/profileValidation.ts:25 | text without a leading number gets the invalid-age message |
| JsText.ParseIntOfDigitsThenText | mobile/src/utils/profileValidation.ts:24 | `parseInt` reads the decimal number at the start of the text and ignores what follows it |
| JsText.ParseIntOfNonDigit | mobile/src/utils/profileValidation.ts:24 | `parseInt` of text that starts with neither blank, sign nor digit is NaN |
| ProfileValidation.SanitizedAboutCanEndInSpace | mobile/src/utils/profileValidation.ts:98-114 | cutting about to 500 characters after trimming can leave a trailing space |
| ProfileFormUtils.FormatFormData | mobile/src/utils/profileFormUtils.ts:16-25 | every field of the result is the original field trimmed, so none starts or ends in white space |
| ProfileFormUtils.FormatFormDataIdempotent | mobile/src/utils/profileFormUtils.ts:16-25 | formatting twice is formatting once |
| ProfileFormUtils.FormattingKeepsTextRules | mobile/src/utils/profileFormUtils.ts:16-25 | formatting does not change the verdict of the location, occupation, interests and about rules |
| ProfileFormUtils.GenderRuleSeesPadding | mobile/src/utils/profileValidation.ts:16 | a padded gender is rejected although its formatted value is valid |
| ProfileFormUtils.Values | mobile/src/utils/profileFormUtils.ts:43 | the six values in key order |
| ProfileFormUtils.HasFormChanges | mobile/src/utils/profileFormUtils.ts:30-37 | true exactly when the current form differs from the initial one in some field |
| ProfileFormUtils.CountNonBlank | mobile/src/utils/profileFormUtils.ts:43 | at most the number of values |
| ProfileFormUtils.CountNonBlankAll | mobile/src/utils/profileFormUtils.ts:43 | every value counts exactly when none is blank |
| ProfileFormUtils.CountNonBlankNone | mobile/src/utils/profileFormUtils.ts:43 | no value counts exactly when all are blank |
| ProfileFormUtils.CountFilledFields | mobile/src/utils/profileFormUtils.ts:42-44 | between 0 and 6; 6 exactly when no field is blank; 0 exactly when all are |
| ProfileFormUtils.CalculateFormCompletion | mobile/src/utils/profileFormUtils.ts:49-53 | the filled share of 100 rounded to nearest; within 0..100; 100 exactly when all filled, 0 exactly when none |
| ProfileFormUtils.CompletionMonotone | mobile/src/utils/profileFormUtils.ts:49-53 | more filled fields never lower the percentage |
| ProfileFormUtils.GetKeyboardType | mobile/src/utils/profileFormUtils.ts:72-79 | numeric exactly for age, default otherwise |
| ProfileFormUtils.GetMaxLength | mobile/src/utils/profileFormUtils.ts:84-95 | 3 for age, 500 for about, 200 for interests, and no limit for the other fields |
| ProfileFormUtils.MaxLengthMatchesRules | mobile/src/utils/profileFormUtils.ts:84-95 | an about text the rule accepts fits the about limit, and a longer interests or about text is cut by the sanitiser to exactly its field's limit |
| ProfileFormUtils.SanitizeInputWithinMaxLength | mobile/src/utils/profileFormUtils.ts:84-95 | the sanitiser cuts interests and about to the input fields' limits |
| ProfileFormUtils.SanitizeInputKeepsLongAge | mobile/src/utils/profileFormUtils.ts:84-88 | the sanitiser does not cut an age to the input field's 3 characters |
| Questions.RandomIndex | mobile/src/utils/questions.ts:108-138 | a random index is below the length it scales |
| Questions.TakeCount | mobile/src/utils/questions.ts:114 | min(count, length) for a non-negative count; a negative count drops that many from the end |
| Questions.Shuffle | mobile/src/utils/questions.ts:105-110 | the shuffled copy has the source's length and is a permutation of it |
| Questions.Unused | mobile/src/utils/questions.ts:120 | exactly the pool questions not used |
| Questions.Others | mobile/src/utils/questions.ts:123 | exactly the pool questions other than the current one |
| Questions.QuestionSession.constructor | mobile/src/utils/questions.ts:102 | the session starts with no used questions |
| Questions.QuestionSession.GetRandomQuestions | mobile/src/utils/questions.ts:104-115 | min(count, length) questions, no question more often than in the source, and the used set emptied |
| Questions.QuestionSession.GetNextQuestion | mobile/src/utils/questions.ts:117-140 | the current question is recorded; an unused, non-current question when one is left; else another question with the used set restarted with it; else the current question |
| Questions.PrefixMultiset | mobile/src/utils/questions.ts:114 | a prefix holds no question more often than the list |
| Questions.PickFromDistinctIsDistinct | mobile/src/utils/questions.ts:104-115 | from a list without repeats the pick has no repeats |
| VideoMetadataUtils.FirstActive | mobile/src/utils/videoMetadataUtils.ts:12-14 | the first index whose interval holds the time, or none when no interval does |
| VideoMetadataUtils.FindActiveQuestion | mobile/src/utils/videoMetadataUtils.ts:8-15 | the first question with start ≤ t < end, or null exactly when there is none |
| VideoMetadataUtils.CalculateVideoProgress | mobile/src/utils/videoMetadataUtils.ts:20-26 | 0 for a zero duration; below the duration exactly time/duration·100; 100 once the time reaches the duration; never above 100 and not negative for a forward time |
| VideoMetadataUtils.ProgressIsMonotone | mobile/src/utils/videoMetadataUtils.ts:20-26 | for a positive duration, a later time never shows less progress |
| VideoMetadataUtils.ClockPartsSplitSeconds | mobile/src/utils/videoMetadataUtils.ts:31-35 | minutes and a 0..59 seconds part that together make the whole seconds |
| VideoMetadataUtils.TwoDigits | mobile/src/utils/videoMetadataUtils.ts:34 | a number below 60 is padded to exactly two digits |
| VideoMetadataUtils.ClockTextShape | mobile/src/utils/videoMetadataUtils.ts:31-35 | the clock is minutes, a colon and two second digits |
| VideoMetadataUtils.ParseClockOfParts | mobile/src/utils/videoMetadataUtils.ts:31-35 | the clock text of minutes and seconds reads back as their total |
| VideoMetadataUtils.ClockTextReadsBack | mobile/src/utils/videoMetadataUtils.ts:31-35 | the clock text of a non-negative time has the form m:ss with a tens digit of at most 5, and reads back as its whole seconds |
| VideoMetadataUtils.FormatTime | mobile/src/utils/videoMetadataUtils.ts:31-35 | formatTime of a non-negative time is m:ss with seconds below 60, and an independent parser reads it back as the whole seconds |
| VideoMetadataUtils.SecondsTextReadsBack | mobile/src/utils/videoMetadataUtils.ts:42 | whole seconds followed by "s" read back as those seconds |
| VideoMetadataUtils.FormatDuration | mobile/src/utils/videoMetadataUtils.ts:40-45 | formatDuration of a non-negative time reads back as its whole seconds, and ends in "s" exactly below a minute (the clock form otherwise) |
| VideoMetadataUtils.CalculateTotalQuestionTime | mobile/src/utils/videoMetadataUtils.ts:50-55 | 0 without questions, else the last question's end |
| VideoMetadataUtils.ValidateQuestionTiming | mobile/src/utils/videoMetadataUtils.ts:74-83 | an accepted timing is an object with string id and text and numeric times, starting before it ends |
| VideoMetadataUtils.ValidateVideoMetadata | mobile/src/utils/videoMetadataUtils.ts:60-69 | an accepted record has an array of questions each of which is an accepted timing |
| VideoMetadataUtils.TimingValidIffOrdered | mobile/src/utils/videoMetadataUtils.ts:74-83 | a stored timing is accepted exactly when it starts before it ends |
| VideoMetadataUtils.MetadataValidIffTimingsOrdered | mobile/src/utils/videoMetadataUtils.ts:60-69 | a stored record is accepted exactly when each timing starts before it ends |
| VideoMetadataUtils.InsertByStart | mobile/src/utils/videoMetadataUtils.ts:89 | inserting into a sorted list keeps it sorted and adds exactly that timing |
| VideoMetadataUtils.SortQuestionsByTime | mobile/src/utils/videoMetadataUtils.ts:88-90 | sorted by start time, a permutation of the input, and the input is left as it was |
| VideoMetadataUtils.FirstStartingAfter | mobile/src/utils/videoMetadataUtils.ts:108 | the first timing starting after t, or none exactly when no timing does |
| VideoMetadataUtils.SortedHasSameQuestions | mobile/src/utils/videoMetadataUtils.ts:88-90 | the sorted list holds exactly the input's timings |
| VideoMetadataUtils.FirstAfterIsEarliest | mobile/src/utils/videoMetadataUtils.ts:107-108 | in a sorted list the first timing starting after t starts no later than any other such |
| VideoMetadataUtils.GetNextQuestion | mobile/src/utils/videoMetadataUtils.ts:103-109 | a question starting after t that starts earliest among those, or null exactly when none starts after t |
| VideoMetadataUtils.EndedBy | mobile/src/utils/videoMetadataUtils.ts:119 | exactly the timings ended by t, sorted when the input is |
| VideoMetadataUtils.LastStartsLatest | mobile/src/utils/videoMetadataUtils.ts:120 | the last of a sorted list starts no earlier than any other |
| VideoMetadataUtils.GetPreviousQuestion | mobile/src/utils/videoMetadataUtils.ts:114-121 | a question ended by t that starts latest among those, or null exactly when none has ended |
| VideoMetadataUtils.GetThumbnailTimestamp | mobile/src/utils/videoMetadataUtils.ts:95-98 | a tenth of the duration in milliseconds, at most 1000 |
| MetadataTypes.Prop | mobile/src/utils/videoMetadataUtils.ts:63-66 | a property of an object, undefined when missing or not an object |
| MetadataTypes.TimingsToJs | mobile/src/types/videoMetadata.types.ts:3-9 | each timing becomes its parsed value, in order |
| VideoMetadataService.QuestionTimings | mobile/src/services/VideoMetadataService.ts:41-47 | one timing per text, in order |
| VideoMetadataService.TimingsAreBackToBack | mobile/src/services/VideoMetadataService.ts:41-47 | the i-th interval has the i-th text and order i, the first starts at 0, each is non-empty and starts where the previous ends |
| VideoMetadataService.ActiveQuestionIsIntervalAtTime | mobile/src/services/VideoMetadataService.ts:41-47 | at time t within the recording the active question is number ⌊t / 3.333⌋ |
| VideoMetadataService.TotalTimeOfTimings | mobile/src/services/VideoMetadataService.ts:41-47 | the total question time is the number of questions times 3.333 |
| VideoMetadataService.CreateVideoMetadata | mobile/src/services/VideoMetadataService.ts:31-72 | the record carries the uri, duration, start time, the timings, the thumbnail when made, and the device description |
| VideoMetadataService.CreatedMetadataIsValid | mobile/src/services/VideoMetadataService.ts:31-72 | a new record passes the strict validator |
| VideoMetadataService.ValidateMetadata | mobile/src/services/VideoMetadataService.ts:179-187 | accepts exactly an object with a string id, a string uri, a numeric duration and an array of questions |
| VideoMetadataService.StrictValidationImpliesBasic | mobile/src/services/VideoMetadataService.ts:179-187 | what the strict validator accepts, this validator accepts |
| VideoMetadataService.BasicValidationIgnoresTimings | mobile/src/services/VideoMetadataService.ts:179-187 | this validator accepts a timing that ends before it starts |
| VideoMetadataService.IndexOfId | mobile/src/services/VideoMetadataService.ts:138 | the first index with the id, or none exactly when no record has it |
| VideoMetadataService.FindById | mobile/src/services/VideoMetadataService.ts:109-117 | the first record with the id (no earlier record has it), or null exactly when none has it |
| VideoMetadataService.FindByUri | mobile/src/services/VideoMetadataService.ts:122-130 | the first stored record with the uri, or null exactly when none has it |
| VideoMetadataService.FindAfterAppend | mobile/src/services/VideoMetadataService.ts:83-112 | after appending, look-up by id still finds the earliest record with it |
| VideoMetadataService.Merge | mobile/src/services/VideoMetadataService.ts:141 | each key the update sets replaces the record's; the others are kept |
| VideoMetadataService.MergeEmptyUpdate | mobile/src/services/VideoMetadataService.ts:141 | an empty update changes nothing |
| VideoMetadataService.MergeIdempotent | mobile/src/services/VideoMetadataService.ts:141 | merging the same update twice is merging once |
| VideoMetadataService.UpdateFirst | mobile/src/services/VideoMetadataService.ts:137-143 | only the first record with the id is merged; without one the list is unchanged |
| VideoMetadataService.FindAfterUpdate | mobile/src/services/VideoMetadataService.ts:137-143 | after an update that keeps the id, look-up finds the merged record |
| KeyedLists.WithoutKey | mobile/src/services/VideoMetadataService.ts:156 | the filter by key used by both stores (also galleryStore.ts:44): never longer than the list, and no element left carries the key |
| KeyedLists.WithoutKeyMembers | mobile/src/services/VideoMetadataService.ts:156 | exactly the elements with another key remain |
| KeyedLists.WithoutKeyCounts | mobile/src/stores/galleryStore.ts:44 | every copy with the key is removed, every other element kept as often as before |
| KeyedLists.WithoutKeyAppend | mobile/src/stores/galleryStore.ts:44 | filtering keeps the order of the rest: it distributes over concatenation |
| KeyedLists.WithoutAbsentKey | mobile/src/services/VideoMetadataService.ts:156 | a list without the key is left as it is |
| KeyedLists.WithoutKeyIdempotent | mobile/src/stores/galleryStore.ts:44 | removing the same key twice is removing it once |
| VideoMetadataService.DeleteThenFind | mobile/src/services/VideoMetadataService.ts:153-162 | after deleting, nothing is found under the id |
| VideoMetadataService.MigrateOne | mobile/src/services/VideoMetadataService.ts:197-202 | a missing device description is filled in; a record that has one is unchanged; nothing else changes |
| VideoMetadataService.Migrated | mobile/src/services/VideoMetadataService.ts:197-203 | each record migrated in place, in order |
| VideoMetadataService.MigratedProperties | mobile/src/services/VideoMetadataService.ts:192-209 | afterwards every record has a device description, those that had one are kept, and migrating again changes nothing |
| VideoMetadataService.MetadataStore.constructor | mobile/src/services/VideoMetadataService.ts:9 | the store holds the given list |
| VideoMetadataService.MetadataStore.GetAllMetadata | mobile/src/services/VideoMetadataService.ts:96-104 | the stored list, or empty when the read fails |
| VideoMetadataService.MetadataStore.SaveMetadata | mobile/src/services/VideoMetadataService.ts:77-91 | the record appended after the existing ones; after a failed read the list becomes just the record; nothing written on a failed write |
| VideoMetadataService.MetadataStore.GetMetadataById | mobile/src/services/VideoMetadataService.ts:109-117 | the first record with the id, or null |
| VideoMetadataService.MetadataStore.GetMetadataByUri | mobile/src/services/VideoMetadataService.ts:122-130 | the first record with the uri, or null |
| VideoMetadataService.MetadataStore.UpdateMetadata | mobile/src/services/VideoMetadataService.ts:135-148 | nothing written when no record has the id; otherwise the list with the first match merged, unless the write fails |
| VideoMetadataService.MetadataStore.DeleteMetadata | mobile/src/services/VideoMetadataService.ts:153-162 | the list without the id's records, unless the write fails |
| VideoMetadataService.MetadataStore.ClearAllMetadata | mobile/src/services/VideoMetadataService.ts:167-174 | the list becomes empty, unless removal fails |
| VideoMetadataService.MetadataStore.MigrateMetadata | mobile/src/services/VideoMetadataService.ts:192-209 | the migrated list is written; failures change nothing and are swallowed |
| VideoCardUtils.FormatProfileInfo | mobile/src/utils/videoCardUtils.ts:8-20 | name then age joined by ", ", each only when truthy; empty exactly when neither is |
| VideoCardUtils.FormatProfileDetails | mobile/src/utils/videoCardUtils.ts:25-37 | occupation then interests joined by " & ", each only when truthy; empty exactly when neither is |
| VideoCardUtils.FormatErrorMessage | mobile/src/utils/videoCardUtils.ts:93-107 | a string as it is, else a truthy message, else "Error code: " and the code, else the fixed text |
| VideoCardUtils.ErrorMessageEmptyOnlyForEmptyString | mobile/src/utils/videoCardUtils.ts:93-107 | the text is empty only for the empty string error |
| VideoCardUtils.TrimOrEmpty | mobile/src/utils/videoCardUtils.ts:122-125 | the trimmed value, or empty when missing |
| VideoCardUtils.SanitizeAge | mobile/src/utils/videoCardUtils.ts:127-129 | a number is kept; a string is parsed and NaN or 0 become absent; the result is always a number or absent |
| VideoCardUtils.SanitizeProfile | mobile/src/utils/videoCardUtils.ts:119-131 | name, occupation, interests and location trimmed or '', age normalised, every other field unchanged |
| VideoCardUtils.SanitizeProfileIdempotent | mobile/src/utils/videoCardUtils.ts:119-131 | sanitising twice is sanitising once |
| VideoCardUtils.TrimOfTrimmedOption | mobile/src/utils/videoCardUtils.ts:122-125 | trimming a trimmed field changes nothing |
| VideoCardUtils.SanitizedStringAge | mobile/src/utils/videoCardUtils.ts:128 | a whole-number string age becomes that number, and "0" becomes absent |
| DatingService.Eligible | mobile/src/services/datingService.ts:37-39 | an eligible document is not the current user's, is not excluded, and has a non-empty video URL |
| DatingService.ToProfile | mobile/src/services/datingService.ts:40-53 | the profile keeps the document's id and video, with a missing email as '' |
| DatingService.EligibleProfiles | mobile/src/services/datingService.ts:34-55 | never more profiles than documents |
| DatingService.EligibleProfilesAreEligible | mobile/src/services/datingService.ts:37-39 | every profile comes from an eligible document |
| DatingService.EligibleDocsAreKept | mobile/src/services/datingService.ts:37-39 | every eligible document yields a profile |
| DatingService.EligibleProfilesAppend | mobile/src/services/datingService.ts:34-55 | the filter keeps fetched order |
| DatingService.TakeFirst | mobile/src/services/datingService.ts:58 | the first min(20, length) profiles |
| DatingService.ReturnedProfilesQualify | mobile/src/services/datingService.ts:37-58 | no returned profile is the user's own, lacks a video, or is excluded |
| DatingService.SwipeStore.constructor | mobile/src/services/datingService.ts:82-88 | no swipes and no matches |
| DatingService.SwipeStore.GetProfiles | mobile/src/services/datingService.ts:20-63 | on success the first 20 eligible profiles in fetched order; on failure the fixed error |
| DatingService.SwipeStore.SaveSwipe | mobile/src/services/datingService.ts:68-100 | writes or overwrites the record under (user, target); a match with the sorted pair is added exactly for a like or superlike answered by the target's like; a failed write raises the fixed error and changes nothing |
| DatingService.SwipeStore.CheckForMatch | mobile/src/services/datingService.ts:105-154 | true exactly when the target's record for the user is a like or superlike; then a match with the sorted pair is added unless writing fails |
| DatingService.SwipeStore.GetSwipeHistory | mobile/src/services/datingService.ts:159-174 | exactly the targets this user has swiped, or none when reading fails |
| DatingService.IsMatch | mobile/src/services/datingService.ts:119-127 | a match needs the target to have swiped the user, with a like or superlike |
| DatingService.SwipedBy | mobile/src/services/datingService.ts:164-167 | exactly the targets keyed under the user |
| DatingService.StringLessTotal | mobile/src/services/datingService.ts:143 | of two different strings exactly one sorts first, and none before itself |
| DatingService.SortedPair | mobile/src/services/datingService.ts:143 | the two users, in ascending order |
| DatingService.SortedPairSymmetric | mobile/src/services/datingService.ts:143 | the pair is the same whichever user liked last |
| DatingService.LikeBackCompletesMatch | mobile/src/services/datingService.ts:82-127 | of two users swiping on each other, the first swipe matches only if the other had already liked, the second matches exactly when the first was a like, and two likes give the same sorted pair from either side |
| DatingService.LikeEachOther | mobile/src/services/datingService.ts:68-100 | a like from a to b (not yet liked back) and a like back, both saved, append exactly one match with the sorted pair |
| DatingStore.DatingStore.constructor | mobile/src/stores/datingStore.ts:15-24 | the initial state |
| DatingStore.DatingStore.LoadProfiles | mobile/src/stores/datingStore.ts:26-56 | without a user only the error is set; on success the eligible profiles replace the list with the cursor at 0; on failure the error is set; loading ends either way |
| DatingStore.DatingStore.Swipe | mobile/src/stores/datingStore.ts:58-89 | nothing changes without a user or current profile; a stored swipe appends one history record for the current profile and moves the cursor by one, asking for a reload exactly from the last two, and a mutual like appends one match with the sorted pair; a failed save sets the error and changes neither swipes, matches, history nor cursor |
| DatingStore.DatingStore.GetCurrentProfile | mobile/src/stores/datingStore.ts:91-94 | the profile under the cursor, or null exactly past the end |
| DatingStore.DatingStore.GetNextProfile | mobile/src/stores/datingStore.ts:96-99 | the profile after the cursor, or null exactly when there is none |
| DatingStore.DatingStore.Reset | mobile/src/stores/datingStore.ts:101-103 | back to the initial state |
| DatingStore.SwipeThroughLoadedList | mobile/src/stores/datingStore.ts:58-89 | swiping a loaded list through records one swipe per profile in order, and only the last two swipes ask for a reload |
| GalleryStore.GalleryStore.constructor | mobile/src/stores/galleryStore.ts:15-19 | the initial state |
| GalleryStore.GalleryStore.LoadVideos | mobile/src/stores/galleryStore.ts:22-33 | the album's videos on success, the message or fixed text on failure; loading ends either way |
| GalleryStore.GalleryStore.SelectVideo | mobile/src/stores/galleryStore.ts:35-37 | only the selection changes |
| GalleryStore.GalleryStore.DeleteVideo | mobile/src/stores/galleryStore.ts:39-52 | on success the videos with the id are removed; the answer is the library's, false when it throws, and then nothing changes |
| GalleryStore.GalleryStore.RefreshGallery | mobile/src/stores/galleryStore.ts:54-56 | the same as loading |
| GalleryStore.GalleryStore.ClearError | mobile/src/stores/galleryStore.ts:58-60 | only the error is cleared |
| GalleryStore.DeleteTwice | mobile/src/stores/galleryStore.ts:39-52 | a second successful delete of the same video leaves the list as the first left it |

## Left out

- **Backend infrastructure.** The ffmpeg process, `fs.statSync`, `fs.unlink`, `res.download`
  and Express wiring are I/O. Encoder events, output sizes and unlink outcomes are inputs.
  A failing `res.download` is not modelled.
- **Upload size limit.** multer's 100 MB limit is enforced by the library and is not modelled.
- **Transcode asynchrony.** The transcode starts without waiting for it, so interleavings with
  other requests are not modelled. Events are separate calls.
- **Job aliasing.** The registry stores job values. A caller that keeps the job object
  returned by `createJob` sees the registry's later in-place updates; the model does not
  capture that sharing.
- VideoRoutes.VideoRoutes.Upload: the 202 body carries the size in bytes,
  not the two-decimal megabyte string made by `toFixed(2)`.
- **Encoder percentages.** The raw ffmpeg percentage and its `Math.round` are not modelled.
  Percentages arrive as whole numbers.
- **Paths.** Directories are relative names. `NodePath.Join` does not normalise `..` or
  repeated separators.
- **Text.** Case mapping covers ASCII and Latin-1 only. Lengths count characters, not UTF-16
  code units. String sorting compares characters, not UTF-16 units.
- **Numbers.** Times, durations and progress are reals, so NaN, the infinities and rounding
  of floating point are not modelled.
- **Question defaults.** The default arguments of `getRandomQuestions` (the built-in question
  list and a count of 6) are data and are not modelled.
- VideoMetadataUtils.SortQuestionsByTime: stability of the sort is not
  stated.
- VideoMetadataService.CreateVideoMetadata: the random id
  part, the clock (one value for all questions) and the thumbnail outcome are parameters.
  `getDeviceInfo` and `getDeviceModel` are not part of this model.
- VideoCardUtils.FormatErrorMessage: an error object whose `message` is
  truthy but not a string is not modelled.
- **Firestore queries.** `getProfiles`' ordering by creation time and its limit of 50 belong
  to the store and are not modelled. The `users` documents are the fetched list.
  `DatingService.SwipeStore.GetSwipeHistory` returns a set, so document order is not
  modelled. The server timestamp of a match is not modelled; the swipe's timestamp is used
  as its creation time.
- DatingStore.DatingStore.Swipe: reports that a reload is due instead of starting
  `loadProfiles` itself. One `timestamp` stands for the two separate `new Date()` reads
  (mobile/src/services/datingService.ts:78 and mobile/src/stores/datingStore.ts:74). The
  action is atomic, although `swipe` reads its state before an `await` and writes it
  afterwards through `set(state => …)`, so interleaved swipes are not modelled.
- **UI helpers.** `dismissKeyboard`, `getPlaceholders`, `isValidVideoUrl`, `getVideoFormat`,
  `logVideoDebug`, `delay`, `createEmptyMetadata` and `exportMetadataForSharing` are UI,
  URL-parser, logging or timer helpers and are not modelled.
