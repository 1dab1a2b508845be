/**
 * The transcoding bridge (backend/src/services/compressionService.ts): the encoder command built
 * from the configured options, and the registry updates made by the encoder's `progress`, `end`
 * and `error` events. The encoder itself is outside the model; its events are inputs.
 */
module CompressionService {
  import opened Wrappers
  import opened JsText
  import opened BackendTypes
  import NodePath
  import VS = VideoService

  /** What the encoder is asked to do. */
  datatype EncoderCommand = EncoderCommand(
    input: string,
    videoCodec: string,
    outputOptions: seq<string>,
    videoBitrate: string,
    audioCodec: string,
    audioBitrate: string,
    output: string)

  /** The raw output options: a fixed scale filter, fast start and pixel format around the caller's preset and crf. */
  function OutputOptions(options: CompressionOptions): (r: seq<string>)
    ensures |r| == 6
  {
    ["-vf", "scale=480:-2", "-preset " + options.preset, "-crf " + IntToString(options.crf),
     "-movflags +faststart", "-pix_fmt yuv420p"]
  }

  function BuildCommand(inputPath: string, outputPath: string, options: CompressionOptions): (cmd: EncoderCommand)
    ensures cmd.input == inputPath && cmd.output == outputPath
    ensures cmd.outputOptions == OutputOptions(options)
  {
    EncoderCommand(inputPath, options.videoCodec, OutputOptions(options), options.videoBitrate,
                   options.audioCodec, options.audioBitrate, outputPath)
  }

  /**
   * Whatever the caller configures, the command scales to width 480 with an even, aspect-preserving
   * height, moves the container index to the front, uses the yuv420p pixel format, and carries the
   * caller's codecs, bitrates, preset and crf.
   */
  lemma CommandAlwaysCarriesFixedOptions(inputPath: string, outputPath: string, options: CompressionOptions)
    ensures var cmd := BuildCommand(inputPath, outputPath, options);
      && (exists i :: 0 <= i < |cmd.outputOptions| - 1 && cmd.outputOptions[i] == "-vf" && cmd.outputOptions[i + 1] == "scale=480:-2")
      && "-movflags +faststart" in cmd.outputOptions && "-pix_fmt yuv420p" in cmd.outputOptions
      && "-preset " + options.preset in cmd.outputOptions
      && "-crf " + IntToString(options.crf) in cmd.outputOptions
      && cmd.videoCodec == options.videoCodec && cmd.audioCodec == options.audioCodec
      && cmd.videoBitrate == options.videoBitrate && cmd.audioBitrate == options.audioBitrate
  {
    var cmd := BuildCommand(inputPath, outputPath, options);
    assert cmd.outputOptions[0] == "-vf" && cmd.outputOptions[1] == "scale=480:-2";
  }

  /** The configured frame `size` is never forwarded: changing it does not change the command. */
  lemma SizeIsNotForwarded(inputPath: string, outputPath: string, options: CompressionOptions, size: string)
    ensures BuildCommand(inputPath, outputPath, options.(size := size)) == BuildCommand(inputPath, outputPath, options)
  {
  }

  /** An event reported by the encoder; percentages arrive already rounded to an integer, or absent. */
  datatype EncoderEvent =
    | Start(commandLine: string)
    | Progress(percent: Option<int>)
    | End(outputSize: int, now: string)
    | Error(message: string)

  /** How the promise returned by `compress` settles. */
  datatype Settlement = Resolved(size: int) | Rejected(message: string)

  /** No event changes a job's identity, its original upload or its creation time. */
  predicate Keeps(job: VideoJob, r: VideoJob)
  {
    r.id == job.id && r.originalFile == job.originalFile && r.originalSize == job.originalSize && r.createdAt == job.createdAt
  }

  /** The effect of one event on the job it belongs to, when that job is still registered. */
  function ApplyEvent(job: VideoJob, outputPath: string, e: EncoderEvent): (r: VideoJob)
    ensures Keeps(job, r)
    ensures e.Start? ==> r == job
    ensures e.Progress? ==> r.status == job.status && r.progress == e.percent.GetOr(0) && r.error == job.error
    ensures e.End? ==> r.status == Completed && r.progress == 100 && r.compressedSize == Some(e.outputSize)
    ensures e.Error? ==> r.status == Failed && r.error == Some(e.message) && r.progress == job.progress
    ensures !e.End? ==> r.compressedFile == job.compressedFile && r.compressedSize == job.compressedSize
  {
    match e
    case Start(_) => job
    case Progress(p) => VS.WithProgress(job, p.GetOr(0))
    case End(size, now) => VS.AsCompleted(job, outputPath, size, now)
    case Error(message) => VS.AsFailed(job, message)
  }

  /** The effect of a sequence of events, in delivery order. */
  function ApplyEvents(job: VideoJob, outputPath: string, events: seq<EncoderEvent>): (r: VideoJob)
    ensures Keeps(job, r)
    ensures (forall i :: 0 <= i < |events| ==> !events[i].End?) ==> r.compressedFile == job.compressedFile
    decreases |events|
  {
    if events == [] then job else ApplyEvents(ApplyEvent(job, outputPath, events[0]), outputPath, events[1..])
  }

  predicate IsProgress(e: EncoderEvent)
  {
    e.Start? || e.Progress?
  }

  /** A progress event whose percentage is within 0..100 (or absent, which counts as 0). */
  predicate InRange(e: EncoderEvent)
  {
    e.Progress? ==> (e.percent.None? || 0 <= e.percent.value <= 100)
  }

  /** Progress and start events keep a processing job processing and well formed, with its last reported percentage. */
  lemma {:induction false} ProgressRunKeepsProcessing(job: VideoJob, outputPath: string, events: seq<EncoderEvent>)
    requires VS.WellFormed(job) && job.status == Processing
    requires forall i :: 0 <= i < |events| ==> IsProgress(events[i])
    ensures var j := ApplyEvents(job, outputPath, events);
      && VS.WellFormed(j) && j.status == Processing
      && j.(progress := job.progress) == job
    decreases |events|
  {
    if events != [] {
      ProgressRunKeepsProcessing(ApplyEvent(job, outputPath, events[0]), outputPath, events[1..]);
    }
  }

  /**
   * A transcode that reports progress and then ends leaves the job completed and well formed, at
   * 100 percent, with the output's file name and size.
   */
  lemma {:induction false} RunThatEndsCompletes(job: VideoJob, outputPath: string, progress: seq<EncoderEvent>, size: int, now: string)
    requires VS.WellFormed(job) && job.status == Processing
    requires forall i :: 0 <= i < |progress| ==> IsProgress(progress[i])
    ensures var j := ApplyEvents(job, outputPath, progress + [End(size, now)]);
      && VS.WellFormed(j) && j.status == Completed && j.progress == 100
      && j.compressedFile == Some(NodePath.Basename(outputPath)) && j.compressedSize == Some(size)
      && j.id == job.id && j.originalFile == job.originalFile
  {
    ApplyEventsAppend(job, outputPath, progress, [End(size, now)]);
    ProgressRunKeepsProcessing(job, outputPath, progress);
  }

  /** A transcode that reports progress and then fails leaves the job failed and well formed, with the encoder's message. */
  lemma {:induction false} RunThatErrsFails(job: VideoJob, outputPath: string, progress: seq<EncoderEvent>, message: string)
    requires VS.WellFormed(job) && job.status == Processing
    requires forall i :: 0 <= i < |progress| ==> IsProgress(progress[i])
    ensures var j := ApplyEvents(job, outputPath, progress + [Error(message)]);
      && VS.WellFormed(j) && j.status == Failed && j.error == Some(message)
      && j.compressedFile == None && j.id == job.id
  {
    ApplyEventsAppend(job, outputPath, progress, [Error(message)]);
    ProgressRunKeepsProcessing(job, outputPath, progress);
  }

  /**
   * Progress stays within 0..100 as long as the encoder only reports percentages in that range;
   * the bridge itself does not clamp.
   */
  lemma {:induction false} ProgressStaysInRange(job: VideoJob, outputPath: string, events: seq<EncoderEvent>)
    requires 0 <= job.progress <= 100
    requires forall i :: 0 <= i < |events| ==> InRange(events[i])
    ensures 0 <= ApplyEvents(job, outputPath, events).progress <= 100
    decreases |events|
  {
    if events != [] {
      ProgressStaysInRange(ApplyEvent(job, outputPath, events[0]), outputPath, events[1..]);
    }
  }

  /** A percentage outside 0..100 is stored as reported. */
  lemma ProgressIsNotClamped(job: VideoJob, outputPath: string)
    ensures ApplyEvent(job, outputPath, Progress(Some(150))).progress == 150
    ensures ApplyEvent(job, outputPath, Progress(Some(-3))).progress == -3
  {
  }

  lemma {:induction false} ApplyEventsAppend(job: VideoJob, outputPath: string, a: seq<EncoderEvent>, b: seq<EncoderEvent>)
    ensures ApplyEvents(job, outputPath, a + b) == ApplyEvents(ApplyEvents(job, outputPath, a), outputPath, b)
    decreases |a|
  {
    if a != [] {
      assert (a + b)[1..] == a[1..] + b;
      ApplyEventsAppend(ApplyEvent(job, outputPath, a[0]), outputPath, a[1..], b);
    } else {
      assert a + b == b;
    }
  }

  class CompressionService {
    constructor ()
    {
    }

    /** Starts a transcode: the command handed to the encoder; no registry change happens yet. */
    method Compress(inputPath: string, outputPath: string, videoId: string, options: CompressionOptions)
      returns (cmd: EncoderCommand)
      ensures cmd == BuildCommand(inputPath, outputPath, options)
      ensures "scale=480:-2" in cmd.outputOptions && "-pix_fmt yuv420p" in cmd.outputOptions
    {
      cmd := EncoderCommand(inputPath, options.videoCodec, OutputOptions(options), options.videoBitrate,
                            options.audioCodec, options.audioBitrate, outputPath);
      assert cmd.outputOptions[1] == "scale=480:-2" && cmd.outputOptions[5] == "-pix_fmt yuv420p";
    }

    /**
     * One encoder event of the transcode for `videoId`: progress is written as reported (0 when
     * absent), the end completes the job and resolves with the output size, an error fails the
     * job and rejects. A job deleted meanwhile is not recreated.
     */
    method HandleEvent(svc: VS.VideoService, videoId: string, outputPath: string, e: EncoderEvent)
      returns (settled: Option<Settlement>)
      modifies svc
      ensures videoId !in old(svc.jobs) ==> svc.jobs == old(svc.jobs)
      ensures videoId in old(svc.jobs) ==>
        svc.jobs == old(svc.jobs)[videoId := ApplyEvent(old(svc.jobs)[videoId], outputPath, e)]
      ensures VS.SameExcept(old(svc.jobs), svc.jobs, videoId)
      ensures settled == match e
        case End(size, _) => Some(Resolved(size))
        case Error(message) => Some(Rejected(message))
        case _ => None
    {
      match e {
        case Start(_) =>
          settled := None;
        case Progress(p) =>
          svc.UpdateProgress(videoId, if p.Some? then p.value else 0);
          settled := None;
        case End(size, now) =>
          svc.CompleteJob(videoId, outputPath, size, now);
          settled := Some(Resolved(size));
        case Error(message) =>
          svc.FailJob(videoId, message);
          settled := Some(Rejected(message));
      }
    }
  }
}
