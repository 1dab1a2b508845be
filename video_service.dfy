/**
 * The in-memory job registry of the backend (backend/src/services/videoService.ts): a map from
 * video id to job record whose entries are created, progressed, completed, failed and deleted
 * in place.
 */
module VideoService {
  import opened Wrappers
  import opened BackendTypes
  import NodePath

  /** The record `createJob` stores: a processing job at 0 percent, with no output and no error yet. */
  function NewJob(id: string, originalFile: string, originalSize: int, now: string): (r: VideoJob)
    ensures r.id == id && r.originalFile == originalFile && r.originalSize == originalSize && r.createdAt == now
    ensures r.status == Processing && r.progress == 0 && WellFormed(r)
    ensures r.compressedFile.None? && r.compressedSize.None? && r.completedAt.None? && r.error.None?
  {
    VideoJob(id, Processing, 0, originalFile, originalSize, None, None, now, None, None)
  }

  /** `updateProgress` on a present job: only `progress` changes, and the value is not clamped. */
  function WithProgress(job: VideoJob, progress: int): (r: VideoJob)
    ensures r.progress == progress
    ensures r.(progress := job.progress) == job
  {
    job.(progress := progress)
  }

  /** `completeJob` on a present job. */
  function AsCompleted(job: VideoJob, outputPath: string, size: int, now: string): (r: VideoJob)
    ensures r.status == Completed && r.progress == 100
    ensures r.compressedFile == Some(NodePath.Basename(outputPath)) && r.compressedSize == Some(size)
    ensures r.completedAt == Some(now)
    ensures r.id == job.id && r.originalFile == job.originalFile && r.originalSize == job.originalSize
    ensures r.createdAt == job.createdAt && r.error == job.error
  {
    job.(status := Completed, progress := 100, compressedFile := Some(NodePath.Basename(outputPath)),
         compressedSize := Some(size), completedAt := Some(now))
  }

  /** `failJob` on a present job: progress and file fields are left as they were. */
  function AsFailed(job: VideoJob, message: string): (r: VideoJob)
    ensures r.status == Failed && r.error == Some(message)
    ensures r.(status := job.status, error := job.error) == job
  {
    job.(status := Failed, error := Some(message))
  }

  /**
   * The record invariants of the job lifecycle: output fields exactly when completed, an error
   * exactly when failed, and a completed job at 100 percent.
   */
  predicate WellFormed(job: VideoJob)
  {
    && (job.compressedFile.Some? <==> job.status == Completed)
    && (job.compressedSize.Some? <==> job.status == Completed)
    && (job.error.Some? <==> job.status == Failed)
    && (job.status == Completed ==> job.progress == 100)
  }

  /** Two registries that agree on every id except possibly `id`. */
  ghost predicate SameExcept(a: map<string, VideoJob>, b: map<string, VideoJob>, id: string)
  {
    forall k :: k != id ==> (k in a <==> k in b) && (k in a ==> a[k] == b[k])
  }

  lemma StoreSameExcept(m: map<string, VideoJob>, id: string, job: VideoJob)
    ensures SameExcept(m, m[id := job], id)
  {
  }

  /** The two terminal transitions keep a processing job well formed. */
  lemma TerminalTransitionsWellFormed(job: VideoJob, outputPath: string, size: int, now: string, message: string)
    requires WellFormed(job) && job.status == Processing
    ensures WellFormed(AsCompleted(job, outputPath, size, now))
    ensures WellFormed(AsFailed(job, message))
  {
  }

  /** Nothing stops `failJob` after `completeJob`: the failed job still names its output file. */
  lemma FailAfterCompleteKeepsOutput(job: VideoJob, outputPath: string, size: int, now: string, message: string)
    ensures var j := AsFailed(AsCompleted(job, outputPath, size, now), message);
      j.status == Failed && j.compressedFile.Some? && !WellFormed(j)
  {
  }

  /** Nothing stops `updateProgress` after `completeJob`: a completed job can leave 100 percent. */
  lemma ProgressAfterCompleteLeaves100(job: VideoJob, outputPath: string, size: int, now: string)
    ensures var j := WithProgress(AsCompleted(job, outputPath, size, now), 50);
      j.status == Completed && j.progress == 50 && !WellFormed(j)
  {
  }

  class VideoService {
    /** `videoJobs`: the registry. */
    var jobs: map<string, VideoJob>

    constructor ()
      ensures jobs == map[]
    {
      jobs := map[];
    }

    /** Stores a fresh processing job under `id`, replacing any earlier entry for that id. */
    method CreateJob(id: string, originalFile: string, originalSize: int, now: string) returns (job: VideoJob)
      modifies this
      ensures job == NewJob(id, originalFile, originalSize, now)
      ensures job.status == Processing && job.progress == 0 && WellFormed(job)
      ensures jobs == old(jobs)[id := job]
      ensures SameExcept(old(jobs), jobs, id)
    {
      job := VideoJob(id, Processing, 0, originalFile, originalSize, None, None, now, None, None);
      jobs := jobs[id := job];
    }

    /** The stored record for `id`, or None. */
    method GetJob(id: string) returns (job: Option<VideoJob>)
      ensures job.Some? <==> id in jobs
      ensures job.Some? ==> job.value == jobs[id]
    {
      job := if id in jobs then Some(jobs[id]) else None;
    }

    method UpdateProgress(id: string, progress: int)
      modifies this
      ensures id !in old(jobs) ==> jobs == old(jobs)
      ensures id in old(jobs) ==> jobs == old(jobs)[id := WithProgress(old(jobs)[id], progress)]
      ensures SameExcept(old(jobs), jobs, id)
    {
      var job := GetJob(id);
      if job.Some? {
        var j := job.value.(progress := progress);
        jobs := jobs[id := j];
      }
    }

    method CompleteJob(id: string, outputPath: string, size: int, now: string)
      modifies this
      ensures id !in old(jobs) ==> jobs == old(jobs)
      ensures id in old(jobs) ==> jobs == old(jobs)[id := AsCompleted(old(jobs)[id], outputPath, size, now)]
      ensures SameExcept(old(jobs), jobs, id)
    {
      var job := GetJob(id);
      if job.Some? {
        var j := job.value.(status := Completed, progress := 100,
          compressedFile := Some(NodePath.Basename(outputPath)), compressedSize := Some(size),
          completedAt := Some(now));
        assert j == AsCompleted(job.value, outputPath, size, now);
        StoreSameExcept(jobs, id, j);
        jobs := jobs[id := j];
      }
    }

    method FailJob(id: string, message: string)
      modifies this
      ensures id !in old(jobs) ==> jobs == old(jobs)
      ensures id in old(jobs) ==> jobs == old(jobs)[id := AsFailed(old(jobs)[id], message)]
      ensures SameExcept(old(jobs), jobs, id)
    {
      var job := GetJob(id);
      if job.Some? {
        var j := job.value.(status := Failed, error := Some(message));
        jobs := jobs[id := j];
      }
    }

    /** Removes `id`; removing an absent id changes nothing. */
    method DeleteJob(id: string)
      modifies this
      ensures id !in jobs
      ensures jobs == old(jobs) - {id}
      ensures SameExcept(old(jobs), jobs, id)
    {
      jobs := jobs - {id};
    }
  }
}
