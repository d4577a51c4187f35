/** The comment controller over the comment collection, keyed by id. None of
    the handlers checks that the caller owns the comment it changes. */
module Comments {
  import opened Js
  import opened ApiErrors
  import opened Collection

  /** A Comment document, with the fields `addComment` fills in. */
  datatype Comment = Comment(content: string, video: Id, owner: Id)

  type Comments = map<Id, Comment>

  /** The ids of the comments on video `v`. */
  function OnVideo(store: Comments, v: Id): (ids: set<Id>)
    ensures forall k :: k in ids <==> k in store && store[k].video == v
  {
    set k | k in store && store[k].video == v
  }

  /** `getVideoComments`: the `$match`/`$group` count of the video's comments
      (no output document when there are none), not the comments themselves.
      A malformed id makes the `ObjectId` constructor throw. `page` and
      `limit` are read but never used, and the 404 branch cannot
      fire because an array is always truthy. */
  function GetVideoComments(store: Comments, videoId: Field): (r: Result<seq<GroupCount>>)
    ensures IsApiError(r, 400, "Video Id is required!") <==> !Truthy(videoId)
    ensures r.Err? <==> !Truthy(videoId) || !IsValidObjectId(videoId.value)
    ensures Truthy(videoId) && !IsValidObjectId(videoId.value) ==> r == Err(BsonError(videoId.value))
    ensures r.Ok? ==> |r.value| <= 1 && (r.value == [] <==> OnVideo(store, videoId.value) == {})
    ensures r.Ok? && r.value != [] ==> r.value[0] == GroupCount(videoId, |OnVideo(store, videoId.value)|)
  {
    if !Truthy(videoId) then Fail(400, "Video Id is required!")
    else if !IsValidObjectId(videoId.value) then Err(BsonError(videoId.value))
    else Ok(GroupByKey(videoId.value, |OnVideo(store, videoId.value)|))
  }

  /** What a successful write sends back: the collection afterwards and the saved comment. */
  datatype Saved = Saved(comments: Comments, comment: Comment)

  /** `addComment`. `newId` is the id the database assigns; the video id is
      not checked before `create`, whose cast rejects a malformed one. */
  function AddComment(store: Comments, caller: ObjectId, videoId: Field, text: Field, newId: Id): (r: Result<Saved>)
    requires newId !in store
    ensures IsApiError(r, 400, "Video Id is required!") <==> !Truthy(videoId)
    ensures IsApiError(r, 400, "Comment text is required!") <==> Truthy(videoId) && !Truthy(text)
    ensures r.Err? <==> !Truthy(videoId) || !Truthy(text) || !IsValidObjectId(videoId.value)
    ensures Truthy(videoId) && Truthy(text) && !IsValidObjectId(videoId.value) ==> r == Err(ValidationError("video"))
    ensures r.Ok? ==>
              && r.value.comment == Comment(text.value, videoId.value, caller)
              && r.value.comments.Keys == store.Keys + {newId}
              && r.value.comments[newId] == r.value.comment
              && (forall k :: k in store ==> r.value.comments[k] == store[k])
  {
    if !Truthy(videoId) then Fail(400, "Video Id is required!")
    else if !Truthy(text) then Fail(400, "Comment text is required!")
    else if !IsValidObjectId(videoId.value) then Err(ValidationError("video"))
    else
      var c := Comment(text.value, videoId.value, caller);
      Ok(Saved(store[newId := c], c))
  }

  /** The `findById` lookup update and delete share: a malformed id fails the cast. */
  function FindComment(store: Comments, commentId: string): (r: Result<Id>)
    ensures r.Err? <==> !IsValidObjectId(commentId) || commentId !in store
    ensures !IsValidObjectId(commentId) ==> r == Err(CastError(commentId))
    ensures IsValidObjectId(commentId) ==>
              (IsApiError(r, 404, "Comment not found!") <==> commentId !in store)
    ensures r.Ok? ==> r.value == commentId && r.value in store
  {
    if !IsValidObjectId(commentId) then Err(CastError(commentId))
    else if commentId !in store then Fail(404, "Comment not found!")
    else Ok(commentId)
  }

  /** `updateComment`: `text.trim()` throws on a missing text; otherwise the
      content becomes the text exactly as sent, untrimmed. */
  function UpdateComment(store: Comments, commentId: Field, text: Field): (r: Result<Saved>)
    ensures IsApiError(r, 400, "Comment Id is required!") <==> !Truthy(commentId)
    ensures Truthy(commentId) && text.None? ==> r == Err(TypeError("text.trim"))
    ensures IsApiError(r, 400, "Comment text is required!") <==> Truthy(commentId) && PresentButBlank(text)
    ensures Truthy(commentId) && text.Some? && !PresentButBlank(text) && r.Err? ==>
              FindComment(store, commentId.value).Err?
              && r == FindComment(store, commentId.value).PropagateFailure()
    ensures r.Err? <==> !Truthy(commentId) || MissingOrBlank(text) || FindComment(store, commentId.value).Err?
    ensures r.Ok? ==>
              && commentId.Some? && text.Some?
              && commentId.value in store
              && r.value.comment == store[commentId.value].(content := text.value)
              && r.value.comments.Keys == store.Keys
              && r.value.comments[commentId.value] == r.value.comment
              && (forall k :: k in store && k != commentId.value ==> r.value.comments[k] == store[k])
  {
    if !Truthy(commentId) then Fail(400, "Comment Id is required!")
    else if text.None? then Err(TypeError("text.trim"))
    else if Trim(text.value) == "" then Fail(400, "Comment text is required!")
    else
      var id :- FindComment(store, commentId.value);
      var c := store[id].(content := text.value);
      Ok(Saved(store[id := c], c))
  }

  /** `deleteComment`: removes exactly the named comment. */
  function DeleteComment(store: Comments, commentId: Field): (r: Result<Comments>)
    ensures IsApiError(r, 400, "Comment Id is required!") <==> !Truthy(commentId)
    ensures Truthy(commentId) ==> r.Err? == FindComment(store, commentId.value).Err?
    ensures Truthy(commentId) && r.Err? ==> r == FindComment(store, commentId.value).PropagateFailure()
    ensures r.Ok? ==>
              && commentId.Some? && commentId.value in store
              && r.value.Keys == store.Keys - {commentId.value}
              && (forall k :: k in r.value ==> r.value[k] == store[k])
  {
    if !Truthy(commentId) then Fail(400, "Comment Id is required!")
    else
      var id :- FindComment(store, commentId.value);
      Ok(store - {id})
  }

  /** Deleting a comment right after adding it restores the collection. */
  lemma AddThenDelete(store: Comments, caller: ObjectId, videoId: Field, text: Field, newId: ObjectId)
    requires newId !in store
    requires AddComment(store, caller, videoId, text, newId).Ok?
    ensures DeleteComment(AddComment(store, caller, videoId, text, newId).value.comments, Some(newId)) == Ok(store)
  {
    var added := AddComment(store, caller, videoId, text, newId).value.comments;
    assert added - {newId} == store;
  }

  /** Adding a comment raises its video's count by one and leaves every other
      video's count alone. */
  lemma AddCounts(store: Comments, caller: ObjectId, videoId: Field, text: Field, newId: Id, v: Id)
    requires newId !in store
    requires AddComment(store, caller, videoId, text, newId).Ok?
    ensures var after := AddComment(store, caller, videoId, text, newId).value.comments;
            |OnVideo(after, v)| == |OnVideo(store, v)| + (if v == videoId.value then 1 else 0)
  {
    var after := AddComment(store, caller, videoId, text, newId).value.comments;
    if v == videoId.value {
      assert OnVideo(after, v) == OnVideo(store, v) + {newId};
    } else {
      assert OnVideo(after, v) == OnVideo(store, v);
    }
  }

  /** Deleting a comment lowers its own video's count by one and no other. */
  lemma DeleteCounts(store: Comments, commentId: Field, v: Id)
    requires DeleteComment(store, commentId).Ok?
    ensures var after := DeleteComment(store, commentId).value;
            |OnVideo(after, v)| == |OnVideo(store, v)| - (if store[commentId.value].video == v then 1 else 0)
  {
    var id := commentId.value;
    var after := DeleteComment(store, commentId).value;
    if store[id].video == v {
      assert OnVideo(after, v) == OnVideo(store, v) - {id};
    } else {
      assert OnVideo(after, v) == OnVideo(store, v);
    }
  }

  /** An update never moves a comment to another video, so no count changes. */
  lemma UpdateKeepsCounts(store: Comments, commentId: Field, text: Field, v: Id)
    requires UpdateComment(store, commentId, text).Ok?
    ensures OnVideo(UpdateComment(store, commentId, text).value.comments, v) == OnVideo(store, v)
  {
  }
}
