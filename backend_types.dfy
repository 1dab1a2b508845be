/** The records of backend/src/types/index.ts and the constants of backend/src/config/index.ts. */
module BackendTypes {
  import opened Wrappers

  datatype JobStatus = Processing | Completed | Failed

  /** One uploaded video's transcoding job. Timestamps are ISO strings supplied by the caller. */
  datatype VideoJob = VideoJob(
    id: string,
    status: JobStatus,
    progress: int,
    originalFile: string,
    originalSize: int,
    compressedFile: Option<string>,
    compressedSize: Option<int>,
    createdAt: string,
    completedAt: Option<string>,
    error: Option<string>)

  /** Encoder settings handed to the compression service. */
  datatype CompressionOptions = CompressionOptions(
    videoCodec: string,
    audioCodec: string,
    size: string,
    videoBitrate: string,
    audioBitrate: string,
    preset: string,
    crf: int)

  /** Staging directory for uploads; the server derives its absolute location at start-up. */
  const UploadDir: string := "uploads"
  /** Directory of transcoded output files. */
  const CompressedDir: string := "compressed"
  const MaxFileSize: int := 100 * 1024 * 1024
  const AllowedExtensions: seq<string> := [".mp4", ".mov", ".avi"]
  const Compression: CompressionOptions :=
    CompressionOptions("libx264", "aac", "854x480", "800k", "96k", "medium", 28)
}
