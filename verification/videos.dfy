/** The video controller handlers that only touch the database: fetch by id,
    metadata update, the publish "toggle" and the thumbnail swap. The media
    host's upload result is a parameter; its delete call's result is never
    acted on and is left out. */
module Videos {
  import opened Js
  import opened ApiErrors
  import opened PublicId

  /** A Video document as the handlers read it. `title` and `description`
      become absent when an update assigns them `undefined`. */
  datatype Video = Video(
    title: Option<string>,
    description: Option<string>,
    videoFile: string,
    thumbnail: string,
    owner: Id,
    isPublished: bool)

  type Videos = map<Id, Video>

  /** What a successful write sends back: the collection afterwards and the saved video. */
  datatype Saved = Saved(videos: Videos, video: Video)

  /** `Video.findById(videoId)`: `null` for an undefined id or an unknown one;
      a string that is not an ObjectId (the empty one included) fails the cast. */
  function FindById(store: Videos, videoId: Field): (r: Result<Option<Id>>)
    ensures r.Err? <==> videoId.Some? && !IsValidObjectId(videoId.value)
    ensures r.Err? ==> r.failure == CastError(videoId.value)
    ensures r.Ok? && r.value.Some? <==> videoId.Some? && IsValidObjectId(videoId.value) && videoId.value in store
    ensures r.Ok? && r.value.Some? ==> r.value.value == videoId.value
  {
    match videoId
    case None => Ok(None)
    case Some(id) =>
      if !IsValidObjectId(id) then Err(CastError(id))
      else if id in store then Ok(Some(id))
      else Ok(None)
  }

  /** A well-formed id naming a stored video. */
  predicate Names(store: Videos, videoId: Field) {
    videoId.Some? && IsValidObjectId(videoId.value) && videoId.value in store
  }

  /** `getVideoById`. A missing video is a 400, not a 404. */
  function GetVideoById(store: Videos, videoId: Field): (r: Result<Video>)
    ensures IsApiError(r, 400, "Enter video Id") <==> !Truthy(videoId)
    ensures Truthy(videoId) && !IsValidObjectId(videoId.value) ==> r == Err(CastError(videoId.value))
    ensures IsApiError(r, 400, "Video not found!")
            <==> Truthy(videoId) && IsValidObjectId(videoId.value) && videoId.value !in store
    ensures r.Ok? <==> Names(store, videoId)
    ensures r.Ok? ==> r.value == store[videoId.value]
  {
    if !Truthy(videoId) then Fail(400, "Enter video Id")
    else
      var found :- FindById(store, videoId);
      match found
      case None => Fail(400, "Video not found!")
      case Some(id) => Ok(store[id])
  }

  /** `updateVideo`: at least one of the two fields must be truthy, and then
      BOTH are assigned, so one left out of the request is erased. */
  function UpdateVideo(store: Videos, videoId: Field, newTitle: Field, newDescription: Field): (r: Result<Saved>)
    ensures IsApiError(r, 400, "Enter valid video Id") <==> !Truthy(videoId)
    ensures IsApiError(r, 400, "Fill atleast one section to update!")
            <==> Truthy(videoId) && !Truthy(newTitle) && !Truthy(newDescription)
    ensures Truthy(videoId) && (Truthy(newTitle) || Truthy(newDescription)) && !IsValidObjectId(videoId.value)
            ==> r == Err(CastError(videoId.value))
    ensures IsApiError(r, 400, "Video not found!")
            <==> Truthy(videoId) && (Truthy(newTitle) || Truthy(newDescription))
                 && IsValidObjectId(videoId.value) && videoId.value !in store
    ensures r.Ok? <==> Names(store, videoId) && (Truthy(newTitle) || Truthy(newDescription))
    ensures r.Ok? ==>
              && r.value.video == store[videoId.value].(title := newTitle, description := newDescription)
              && r.value.videos.Keys == store.Keys
              && r.value.videos[videoId.value] == r.value.video
              && (forall k :: k in store && k != videoId.value ==> r.value.videos[k] == store[k])
  {
    if !Truthy(videoId) then Fail(400, "Enter valid video Id")
    else if !(Truthy(newTitle) || Truthy(newDescription)) then Fail(400, "Fill atleast one section to update!")
    else
      var found :- FindById(store, videoId);
      match found
      case None => Fail(400, "Video not found!")
      case Some(id) =>
        var v := store[id].(title := newTitle, description := newDescription);
        Ok(Saved(store[id := v], v))
  }

  /** An update that sends only a new title erases the description. */
  lemma UpdateErasesOmittedField(store: Videos, videoId: Field, newTitle: string)
    requires Names(store, videoId)
    requires newTitle != ""
    ensures var r := UpdateVideo(store, videoId, Some(newTitle), None);
            r.Ok? && r.value.video.title == Some(newTitle) && r.value.video.description == None
  {
  }

  /** `togglePublishStatus` as written: the lookup runs before the id check,
      an unknown id leaves `video` null so the assignment throws, and the
      flag is set to `true` whatever it was. */
  function TogglePublishStatus(store: Videos, videoId: Field): (r: Result<Saved>)
    ensures videoId.None? <==> IsApiError(r, 400, "Enter valid video Id")
    ensures videoId.Some? && !IsValidObjectId(videoId.value) ==> r == Err(CastError(videoId.value))
    ensures videoId.Some? && IsValidObjectId(videoId.value) && videoId.value !in store ==> r.Err? && r.failure.TypeError?
    ensures r.Ok? <==> Names(store, videoId)
    ensures r.Ok? ==>
              && r.value.video == store[videoId.value].(isPublished := true)
              && r.value.videos.Keys == store.Keys
              && r.value.videos[videoId.value] == r.value.video
              && (forall k :: k in store && k != videoId.value ==> r.value.videos[k] == store[k])
  {
    var found :- FindById(store, videoId);
    if !Truthy(videoId) then Fail(400, "Enter valid video Id")
    else
      match found
      case None => Err(TypeError("video.isPublished"))
      case Some(id) =>
        var v := store[id].(isPublished := true);
        Ok(Saved(store[id := v], v))
  }

  /** The "toggle" is idempotent and never unpublishes: after it, the video is
      published, and a second call changes nothing. */
  lemma PublishIsIdempotent(store: Videos, videoId: Field)
    requires TogglePublishStatus(store, videoId).Ok?
    ensures var once := TogglePublishStatus(store, videoId).value.videos;
            && once[videoId.value].isPublished
            && TogglePublishStatus(once, videoId).Ok?
            && TogglePublishStatus(once, videoId).value.videos == once
  {
    var once := TogglePublishStatus(store, videoId).value.videos;
    var id := videoId.value;
    assert once[id := once[id].(isPublished := true)] == once;
  }

  /** A published video stays published, whichever video the call names. */
  lemma PublishNeverUnpublishes(store: Videos, videoId: Field, k: Id)
    requires TogglePublishStatus(store, videoId).Ok?
    requires k in store && store[k].isPublished
    ensures TogglePublishStatus(store, videoId).value.videos[k].isPublished
  {
  }

  /** The toggle the handler's name promises: the flag is flipped. */
  function TogglePublishStatusFlip(store: Videos, videoId: Field): (r: Result<Saved>)
    ensures r.Ok? <==> Names(store, videoId)
    ensures r.Ok? ==>
              && r.value.video == store[videoId.value].(isPublished := !store[videoId.value].isPublished)
              && r.value.videos.Keys == store.Keys
              && r.value.videos[videoId.value] == r.value.video
              && (forall k :: k in store && k != videoId.value ==> r.value.videos[k] == store[k])
  {
    var found :- FindById(store, videoId);
    if !Truthy(videoId) then Fail(400, "Enter valid video Id")
    else
      match found
      case None => Err(TypeError("video.isPublished"))
      case Some(id) =>
        var v := store[id].(isPublished := !store[id].isPublished);
        Ok(Saved(store[id := v], v))
  }

  /** Flipping twice restores the collection. */
  lemma FlipTwiceRestores(store: Videos, videoId: Field)
    requires TogglePublishStatusFlip(store, videoId).Ok?
    ensures var once := TogglePublishStatusFlip(store, videoId).value.videos;
            TogglePublishStatusFlip(once, videoId) == Ok(Saved(store, store[videoId.value]))
  {
    var id := videoId.value;
    var once := TogglePublishStatusFlip(store, videoId).value.videos;
    assert once[id := store[id]] == store;
  }

  /** `updateVideoThumbnail` as written. `path` is `req.file?.path` and
      `uploaded` the URL the media host returns for it (`None` when the upload
      helper returns `null`). After the lookup the handler re-tests `videoId`
      instead of `video`, so an unknown id reaches `video.thumbnail` and
      throws; a stored thumbnail URL without a public id throws as well. */
  function UpdateVideoThumbnail(store: Videos, videoId: Field, path: Field, uploaded: Option<string>)
    : (r: Result<Saved>)
    ensures IsApiError(r, 400, "Enter valid video Id") <==> !Truthy(videoId)
    ensures IsApiError(r, 400, "Thumbnail not found!") <==> Truthy(videoId) && !Truthy(path)
    ensures Truthy(videoId) && Truthy(path) && !IsValidObjectId(videoId.value) ==> r == Err(CastError(videoId.value))
    ensures Truthy(videoId) && Truthy(path) && IsValidObjectId(videoId.value) && videoId.value !in store
            ==> r == Err(TypeError("video.thumbnail"))
    ensures Truthy(path) && Names(store, videoId) && ExtractPublicId(store[videoId.value].thumbnail).None?
            ==> r.Err? && r.failure.TypeError?
    ensures IsApiError(r, 400, "Failed to upload Thumbnail!")
            <==> Truthy(path) && Names(store, videoId) && ExtractPublicId(store[videoId.value].thumbnail).Some?
                 && uploaded.None?
    ensures r.Ok? <==> Truthy(path) && Names(store, videoId)
                       && ExtractPublicId(store[videoId.value].thumbnail).Some? && uploaded.Some?
    ensures r.Ok? ==>
              && r.value.video == store[videoId.value].(thumbnail := uploaded.value)
              && r.value.videos.Keys == store.Keys
              && r.value.videos[videoId.value] == r.value.video
              && (forall k :: k in store && k != videoId.value ==> r.value.videos[k] == store[k])
  {
    if !Truthy(videoId) then Fail(400, "Enter valid video Id")
    else if !Truthy(path) then Fail(400, "Thumbnail not found!")
    else
      var found :- FindById(store, videoId);
      if !Truthy(videoId) then Fail(400, "Enter valid video Id")
      else
        match found
        case None => Err(TypeError("video.thumbnail"))
        case Some(id) =>
          match ExtractPublicId(store[id].thumbnail)
          case None => Err(TypeError("match[1]"))
          case Some(_) =>
            match uploaded
            case None => Fail(400, "Failed to upload Thumbnail!")
            case Some(url) =>
              var v := store[id].(thumbnail := url);
              Ok(Saved(store[id := v], v))
  }

  /** `updateVideoThumbnail` with the second check testing `video`, as the
      surrounding handlers do: an unknown id is a 400 instead of a crash. */
  function UpdateVideoThumbnailChecked(store: Videos, videoId: Field, path: Field, uploaded: Option<string>)
    : (r: Result<Saved>)
    ensures Truthy(videoId) && Truthy(path) && IsValidObjectId(videoId.value) && videoId.value !in store
            ==> IsApiError(r, 400, "Enter valid video Id")
    ensures Names(store, videoId) ==> r == UpdateVideoThumbnail(store, videoId, path, uploaded)
    ensures r.Err? ==> UpdateVideoThumbnail(store, videoId, path, uploaded).Err?
  {
    if !Truthy(videoId) then Fail(400, "Enter valid video Id")
    else if !Truthy(path) then Fail(400, "Thumbnail not found!")
    else
      var found :- FindById(store, videoId);
      match found
      case None => Fail(400, "Enter valid video Id")
      case Some(_) => UpdateVideoThumbnail(store, videoId, path, uploaded)
  }

  /** The two versions differ exactly on an unknown well-formed id: the
      written one throws a TypeError (status 500), the checked one a 400. */
  lemma ThumbnailCheckDiffers(store: Videos, videoId: Field, path: Field, uploaded: Option<string>)
    requires Truthy(videoId) && Truthy(path) && IsValidObjectId(videoId.value) && videoId.value !in store
    ensures StatusOf(UpdateVideoThumbnail(store, videoId, path, uploaded).failure) == 500
    ensures StatusOf(UpdateVideoThumbnailChecked(store, videoId, path, uploaded).failure) == 400
  {
  }
}
