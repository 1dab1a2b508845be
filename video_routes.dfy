/**
 * The HTTP handlers of backend/src/routes/videoRoutes.ts (upload, status, download, delete) as
 * operations on the job registry that answer with a status code and a JSON body or a file. An
 * upload first passes the upload middleware; an error it raises reaches the server's error
 * handler (backend/src/middleware/errorHandler.ts), which answers 500 because the error carries
 * no status of its own.
 */
module VideoRoutes {
  import opened Wrappers
  import opened BackendTypes
  import NodePath
  import UploadMiddleware
  import VS = VideoService
  import CS = CompressionService

  datatype Body =
    | ErrorBody(error: string)
    | AcceptedBody(message: string, videoId: string, status: JobStatus, originalSize: int)
    | StatusBody(status: JobStatus, progress: int, jobError: Option<string>)
    | MessageBody(message: string)

  datatype Response = Json(code: int, body: Body) | SendFile(path: string)

  const NotFound: Response := Json(404, ErrorBody("Video hittades inte"))
  const NoFile: Response := Json(400, ErrorBody("Ingen video uppladdad"))
  const NotReady: Response := Json(400, ErrorBody("Video är inte klar än"))
  const Deleted: Response := Json(200, MessageBody("Video borttagen"))
  /** What `path.join` throws when handed `undefined`; the error handler answers 500 with it. */
  const JoinUndefined: string := "The \"path\" argument must be of type string. Received undefined"

  /** A file as the client sent it. */
  datatype IncomingFile = IncomingFile(originalName: string, size: int)

  /** Where the transcode of `videoId` is written. */
  function OutputPath(videoId: string): string
  {
    NodePath.Join(CompressedDir, videoId + "_compressed.mp4")
  }

  /** GET /:id/status. */
  function Status(jobs: map<string, VideoJob>, id: string): (r: Response)
    ensures r.Json? && (r.code == 404 <==> id !in jobs)
    ensures id in jobs ==> r == Json(200, StatusBody(jobs[id].status, jobs[id].progress, jobs[id].error))
  {
    if id !in jobs then NotFound
    else
      var job := jobs[id];
      Json(200, StatusBody(job.status, if job.progress == 0 then 0 else job.progress, job.error))
  }

  /** GET /:id/download. */
  function Download(jobs: map<string, VideoJob>, id: string): (r: Response)
    ensures id !in jobs ==> r == NotFound
    ensures id in jobs && jobs[id].status != Completed ==> r == NotReady
    ensures r.SendFile? ==>
      && id in jobs && jobs[id].status == Completed && jobs[id].compressedFile.Some?
      && r.path == NodePath.Join(CompressedDir, jobs[id].compressedFile.value)
  {
    if id !in jobs then NotFound
    else if jobs[id].status != Completed then NotReady
    else match jobs[id].compressedFile
      case None => Json(500, ErrorBody(JoinUndefined))
      case Some(f) => SendFile(NodePath.Join(CompressedDir, f))
  }

  /** A well-formed completed job is always served as a file; the 500 answer needs a malformed record. */
  lemma DownloadOfWellFormed(jobs: map<string, VideoJob>, id: string)
    requires id in jobs && VS.WellFormed(jobs[id]) && jobs[id].status == Completed
    ensures Download(jobs, id).SendFile?
  {
  }

  /**
   * The file served for a job completed by the transcode of an upload is the very file the
   * encoder was told to write.
   */
  lemma DownloadServesEncoderOutput(jobs: map<string, VideoJob>, videoId: string, job: VideoJob, size: int, now: string)
    requires '/' !in videoId
    requires videoId in jobs && jobs[videoId] == VS.AsCompleted(job, OutputPath(videoId), size, now)
    ensures Download(jobs, videoId) == SendFile(OutputPath(videoId))
  {
    NodePath.BasenameOfJoin(CompressedDir, videoId + "_compressed.mp4");
  }

  /**
   * The unlinks the delete handler attempts, in order: the staged upload if the job names one,
   * then the output file if it names one. Both sit in one try block, so a failed first unlink
   * skips the second.
   */
  function UnlinkAttempts(job: VideoJob, originalUnlinked: bool): (r: seq<string>)
    ensures |r| <= 2
    ensures job.originalFile != "" ==> r != [] && r[0] == NodePath.Join(UploadDir, job.originalFile)
    ensures job.originalFile != "" && !originalUnlinked ==> |r| == 1
    ensures |r| == 2 ==> originalUnlinked
    ensures (job.originalFile == "" || originalUnlinked) && job.compressedFile.Some? && job.compressedFile.value != "" ==>
      r != [] && r[|r| - 1] == NodePath.Join(CompressedDir, job.compressedFile.value)
    ensures job.compressedFile.None? ==> |r| <= 1
    ensures forall x :: x in r ==>
      || (job.originalFile != "" && x == NodePath.Join(UploadDir, job.originalFile))
      || (job.compressedFile.Some? && job.compressedFile.value != "" && x == NodePath.Join(CompressedDir, job.compressedFile.value))
    ensures job.originalFile == "" && !(job.compressedFile.Some? && job.compressedFile.value != "") ==> r == []
  {
    var first := if job.originalFile != "" then [NodePath.Join(UploadDir, job.originalFile)] else [];
    if job.originalFile != "" && !originalUnlinked then first
    else if job.compressedFile.Some? && job.compressedFile.value != "" then
      first + [NodePath.Join(CompressedDir, job.compressedFile.value)]
    else first
  }

  class VideoRoutes {
    const svc: VS.VideoService
    const compressor: CS.CompressionService

    constructor (svc: VS.VideoService, compressor: CS.CompressionService)
      ensures this.svc == svc && this.compressor == compressor
    {
      this.svc := svc;
      this.compressor := compressor;
    }

    /**
     * POST /upload. `file` is the multipart field `video`; `nowMillis` and `randomPart` name the
     * stored file, `videoId` is the fresh uuid and `now` the creation time. On acceptance the job
     * is registered and the transcode is started without waiting for it; `started` is the
     * command it was started with.
     */
    method Upload(file: Option<IncomingFile>, nowMillis: nat, randomPart: string, videoId: string, now: string)
      returns (resp: Response, started: Option<CS.EncoderCommand>)
      modifies svc
      ensures file.None? ==> resp == NoFile && started == None && svc.jobs == old(svc.jobs)
      ensures file.Some? && UploadMiddleware.FileFilter(file.value.originalName).Err? ==>
        && resp == Json(500, ErrorBody(UploadMiddleware.FileFilter(file.value.originalName).error))
        && started == None && svc.jobs == old(svc.jobs)
      ensures file.Some? && UploadMiddleware.FileFilter(file.value.originalName).Ok? ==>
        var unique := UploadMiddleware.UniqueName(nowMillis, randomPart);
        && svc.jobs == old(svc.jobs)[videoId := VS.NewJob(videoId, UploadMiddleware.StoredFilename(unique, file.value.originalName), file.value.size, now)]
        && resp == Json(202, AcceptedBody("Video uppladdad och komprimering startad", videoId, Processing, file.value.size))
        && started == Some(CS.BuildCommand(UploadMiddleware.StoredPath(unique, file.value.originalName), OutputPath(videoId), Compression))
      ensures VS.SameExcept(old(svc.jobs), svc.jobs, videoId)
    {
      if file.None? {
        return NoFile, None;
      }
      var f := file.value;
      var filter := UploadMiddleware.FileFilter(f.originalName);
      if filter.Err? {
        return Json(500, ErrorBody(filter.error)), None;
      }
      var unique := UploadMiddleware.UniqueName(nowMillis, randomPart);
      var filename := UploadMiddleware.StoredFilename(unique, f.originalName);
      var path := UploadMiddleware.StoredPath(unique, f.originalName);
      var outputPath := NodePath.Join(CompressedDir, videoId + "_compressed.mp4");
      var job := svc.CreateJob(videoId, filename, f.size, now);
      var cmd := compressor.Compress(path, outputPath, videoId, Compression);
      started := Some(cmd);
      resp := Json(202, AcceptedBody("Video uppladdad och komprimering startad", videoId, Processing, f.size));
    }

    /**
     * DELETE /:id. `originalUnlinked` says whether removing the staged upload succeeds; unlink
     * failures are only logged. `attempted` lists the files whose removal was tried.
     */
    method Delete(id: string, originalUnlinked: bool) returns (resp: Response, attempted: seq<string>)
      modifies svc
      ensures id !in old(svc.jobs) ==> resp == NotFound && attempted == [] && svc.jobs == old(svc.jobs)
      ensures id in old(svc.jobs) ==>
        && resp == Deleted
        && attempted == UnlinkAttempts(old(svc.jobs)[id], originalUnlinked)
        && svc.jobs == old(svc.jobs) - {id}
      ensures id !in svc.jobs
      ensures VS.SameExcept(old(svc.jobs), svc.jobs, id)
    {
      var found := svc.GetJob(id);
      if found.None? {
        return NotFound, [];
      }
      var job := found.value;
      attempted := [];
      var failed := false;
      if job.originalFile != "" {
        attempted := attempted + [NodePath.Join(UploadDir, job.originalFile)];
        failed := !originalUnlinked;
      }
      if !failed && job.compressedFile.Some? && job.compressedFile.value != "" {
        attempted := attempted + [NodePath.Join(CompressedDir, job.compressedFile.value)];
      }
      svc.DeleteJob(id);
      resp := Deleted;
    }

    /** Deleting the same id twice answers 404 the second time. */
    method DeleteTwice(id: string, firstUnlinked: bool, secondUnlinked: bool) returns (first: Response, second: Response)
      modifies svc
      ensures first == if id in old(svc.jobs) then Deleted else NotFound
      ensures second == NotFound
      ensures Status(svc.jobs, id) == NotFound
    {
      var attempted;
      first, attempted := Delete(id, firstUnlinked);
      second, attempted := Delete(id, secondUnlinked);
    }

    /**
     * The whole life of an accepted upload whose transcode reports progress and then ends: status
     * is "processing" at 0 right after the upload, "completed" at 100 afterwards, and download
     * serves the file the encoder wrote.
     */
    method UploadAndTranscode(file: IncomingFile, nowMillis: nat, randomPart: string, videoId: string, now: string,
                              progress: seq<CS.EncoderEvent>, outputSize: int, doneAt: string)
      returns (accepted: Response, early: Response, final: Response, download: Response)
      requires UploadMiddleware.FileFilter(file.originalName).Ok?
      requires '/' !in videoId
      requires forall i :: 0 <= i < |progress| ==> CS.IsProgress(progress[i])
      modifies svc
      ensures accepted.Json? && accepted.code == 202
      ensures early == Json(200, StatusBody(Processing, 0, None))
      ensures final == Json(200, StatusBody(Completed, 100, None))
      ensures download == SendFile(OutputPath(videoId))
    {
      var started;
      accepted, started := Upload(Some(file), nowMillis, randomPart, videoId, now);
      assert videoId in svc.jobs && svc.jobs[videoId].status == Processing && svc.jobs[videoId].progress == 0;
      assert VS.WellFormed(svc.jobs[videoId]);
      early := Status(svc.jobs, videoId);
      var i := 0;
      while i < |progress|
        invariant 0 <= i <= |progress|
        invariant videoId in svc.jobs
        invariant VS.WellFormed(svc.jobs[videoId]) && svc.jobs[videoId].status == Processing
      {
        var settled := compressor.HandleEvent(svc, videoId, OutputPath(videoId), progress[i]);
        i := i + 1;
      }
      ghost var beforeEnd := svc.jobs[videoId];
      var settled := compressor.HandleEvent(svc, videoId, OutputPath(videoId), CS.End(outputSize, doneAt));
      VS.TerminalTransitionsWellFormed(beforeEnd, OutputPath(videoId), outputSize, doneAt, "");
      final := Status(svc.jobs, videoId);
      download := Download(svc.jobs, videoId);
      DownloadServesEncoderOutput(svc.jobs, videoId, beforeEnd, outputSize, doneAt);
    }
  }
}
