/**
 * The gallery screen's store (mobile/src/stores/galleryStore.ts): the videos of the app's album,
 * the selected video, and loading and error flags. The media library calls are inputs: the
 * album listing as a result, and the outcome of a delete as `Some(success)` or `None` when the
 * call throws.
 */
module GalleryStore {
  import opened Wrappers
  import opened KeyedLists

  /** A video of the album (mobile/src/types/gallery.ts). */
  datatype VideoItem = VideoItem(
    id: string,
    uri: string,
    thumbnailUri: Option<string>,
    duration: real,
    createdAt: int,
    width: int,
    height: int,
    filename: string,
    mediaType: string,
    albumId: Option<string>)

  const LoadVideosError := "Kunde inte ladda videor"

  /** The key the store deletes by. */
  function VideoId(v: VideoItem): string
  {
    v.id
  }

  class GalleryStore {
    var videos: seq<VideoItem>
    var isLoading: bool
    var error: Option<string>
    var selectedVideo: Option<VideoItem>

    constructor()
      ensures videos == [] && !isLoading && error == None && selectedVideo == None
    {
      videos, isLoading, error, selectedVideo := [], false, None, None;
    }

    /** `loadVideos`: the album's videos on success, the error message (or a fixed one) on failure; loading ends either way. */
    method LoadVideos(result: Result<seq<VideoItem>, string>)
      modifies this
      ensures !isLoading && selectedVideo == old(selectedVideo)
      ensures result.Ok? ==> videos == result.value && error == None
      ensures result.Err? ==> videos == old(videos)
      ensures result.Err? ==> error == Some(if result.error != "" then result.error else LoadVideosError)
    {
      isLoading, error := true, None;
      match result
      case Ok(loaded) =>
        videos, isLoading := loaded, false;
      case Err(message) =>
        error, isLoading := Some(if message != "" then message else LoadVideosError), false;
    }

    /** `selectVideo`: sets the selection only. */
    method SelectVideo(video: Option<VideoItem>)
      modifies this
      ensures selectedVideo == video
      ensures videos == old(videos) && isLoading == old(isLoading) && error == old(error)
    {
      selectedVideo := video;
    }

    /**
     * `deleteVideo`: when the media library reports success the video is removed from the list;
     * the answer is the library's, and false when the call throws, in which case nothing changes.
     */
    method DeleteVideo(videoId: string, outcome: Option<bool>) returns (deleted: bool)
      modifies this
      ensures deleted == (outcome == Some(true))
      ensures deleted ==> videos == WithoutKey(old(videos), VideoId, videoId)
      ensures !deleted ==> videos == old(videos)
      ensures isLoading == old(isLoading) && error == old(error) && selectedVideo == old(selectedVideo)
    {
      if outcome.None? {
        return false;
      }
      var success := outcome.value;
      if success {
        videos := WithoutKey(videos, VideoId, videoId);
      }
      return success;
    }

    /** `refreshGallery`: loads again. */
    method RefreshGallery(result: Result<seq<VideoItem>, string>)
      modifies this
      ensures !isLoading && selectedVideo == old(selectedVideo)
      ensures result.Ok? ==> videos == result.value && error == None
      ensures result.Err? ==> videos == old(videos)
      ensures result.Err? ==> error == Some(if result.error != "" then result.error else LoadVideosError)
    {
      LoadVideos(result);
    }

    /** `clearError`: clears the error only. */
    method ClearError()
      modifies this
      ensures error == None
      ensures videos == old(videos) && isLoading == old(isLoading) && selectedVideo == old(selectedVideo)
    {
      error := None;
    }
  }

  /** Deleting the same video twice: the second delete leaves the list as the first left it. */
  method DeleteTwice(store: GalleryStore, videoId: string) returns (first: bool, second: bool)
    modifies store
    ensures first && second
    ensures store.videos == WithoutKey(old(store.videos), VideoId, videoId)
  {
    first := store.DeleteVideo(videoId, Some(true));
    second := store.DeleteVideo(videoId, Some(true));
    WithoutKeyIdempotent(old(store.videos), VideoId, videoId);
  }
}
