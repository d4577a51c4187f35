/** The like controller: toggling a like on a video, a comment or a tweet, and
    listing a user's likes. A Like document records who liked and exactly one
    of the three targets; the toggles key on (likedBy, target field). */
module Likes {
  import opened Js
  import opened ApiErrors
  import opened Collection

  datatype Kind = OnVideo | OnComment | OnTweet

  /** A Like document. A target the create call left undefined is absent (`None`). */
  datatype Like = Like(likedBy: Id, video: Option<Id>, comment: Option<Id>, tweet: Option<Id>)

  /** The target field a toggle of this kind filters on. */
  function TargetOf(l: Like, kind: Kind): Option<Id> {
    match kind
    case OnVideo => l.video
    case OnComment => l.comment
    case OnTweet => l.tweet
  }

  /** The document `Like.create({likedBy, <kind>: target})` stores. */
  function NewLike(user: Id, kind: Kind, target: Field): (l: Like)
    ensures l.likedBy == user && TargetOf(l, kind) == target
    ensures forall other :: other != kind ==> TargetOf(l, other) == None
  {
    match kind
    case OnVideo => Like(user, target, None, None)
    case OnComment => Like(user, None, target, None)
    case OnTweet => Like(user, None, None, target)
  }

  /** The filter `{likedBy: user, <kind>: target}`. An undefined target is sent
      to the database as null, which matches a like whose field is absent. */
  predicate Matches(l: Like, user: Id, kind: Kind, target: Field) {
    l.likedBy == user && TargetOf(l, kind) == target
  }

  function Filter(user: Id, kind: Kind, target: Field): Like -> bool {
    (l: Like) => Matches(l, user, kind, target)
  }

  function GuardMessage(kind: Kind): string {
    match kind
    case OnVideo => "Give video and user info!"
    case OnComment => "Give comment and user info!"
    case OnTweet => "Give tweet and user info!"
  }

  /** What a toggle sends back: the collection afterwards, the created like
      (null after an unlike) and the response message. */
  datatype Reply = Reply(likes: seq<Like>, data: Option<Like>, message: string)

  /** `toggleVideoLike`, `toggleCommentLike` and `toggleTweetLike`. The caller's
      id is always truthy, so the 400 guard never fires; a malformed target id
      makes the `findOne` cast fail. */
  function ToggleLike(likes: seq<Like>, caller: ObjectId, kind: Kind, target: Field): (r: Result<Reply>)
    ensures r.Err? <==> target.Some? && !IsValidObjectId(target.value)
    ensures r.Err? ==> r.failure == CastError(target.value)
    ensures r.Ok? && Count(likes, Filter(caller, kind, target)) > 0 ==>
              && r.value.data == None
              && r.value.message == "Unliked successfully!"
              && FindFirst(likes, Filter(caller, kind, target)).Some?
              && r.value.likes == RemoveAt(likes, FindFirst(likes, Filter(caller, kind, target)).value)
              && Count(r.value.likes, Filter(caller, kind, target)) == Count(likes, Filter(caller, kind, target)) - 1
    ensures r.Ok? && Count(likes, Filter(caller, kind, target)) == 0 ==>
              && r.value.likes == likes + [NewLike(caller, kind, target)]
              && r.value.data == Some(NewLike(caller, kind, target))
              && r.value.message == "Like successful!"
  {
    var userId: Field := Some(caller);
    if !Truthy(target) && !Truthy(userId) then Fail(400, GuardMessage(kind))
    else if target.Some? && !IsValidObjectId(target.value) then Err(CastError(target.value))
    else
      match Toggle(likes, Filter(caller, kind, target), NewLike(caller, kind, target))
      case Removed(rest, _) => Ok(Reply(rest, None, "Unliked successfully!"))
      case Created(all, made) => Ok(Reply(all, Some(made), "Like successful!"))
  }

  /** The guard `!targetId && !userId` only rejects when BOTH are missing: a
      missing target id on its own goes through and toggles the caller's like
      whose target field is absent. */
  lemma MissingTargetPassesGuard(likes: seq<Like>, caller: ObjectId, kind: Kind)
    ensures ToggleLike(likes, caller, kind, None).Ok?
    ensures ToggleLike(likes, caller, kind, Some("")).Err?
    ensures ToggleLike(likes, caller, kind, Some("")).failure == CastError("")
  {
  }

  /** Without a target id the filter `{likedBy, <kind>: undefined}` matches any
      of the caller's likes that lacks the `<kind>` field, whatever it targets:
      a target-less video toggle unlikes the caller's comment or tweet like. */
  lemma MissingTargetUnlikesOtherKind(caller: ObjectId, kind: Kind, other: Kind, t: Id)
    requires other != kind
    ensures ToggleLike([NewLike(caller, other, Some(t))], caller, kind, None)
            == Ok(Reply([], None, "Unliked successfully!"))
  {
  }

  /** At most one target field is set. */
  predicate SingleTarget(l: Like) {
    (if l.video.Some? then 1 else 0) + (if l.comment.Some? then 1 else 0)
    + (if l.tweet.Some? then 1 else 0) <= 1
  }

  /** Two likes by the same user on the same target. */
  predicate SameKey(a: Like, b: Like) {
    a.likedBy == b.likedBy
    && ((a.video.Some? && a.video == b.video)
        || (a.comment.Some? && a.comment == b.comment)
        || (a.tweet.Some? && a.tweet == b.tweet))
  }

  /** The state the toggles maintain: every like names at most one target, and
      no two likes share a (user, target) key. */
  ghost predicate WellFormed(likes: seq<Like>) {
    && (forall k :: 0 <= k < |likes| ==> SingleTarget(likes[k]))
    && (forall i, j :: 0 <= i < j < |likes| ==> !SameKey(likes[i], likes[j]))
  }

  /** In a well-formed collection a present (user, kind, target) key has at
      most one like. */
  lemma AtMostOneLikePerKey(likes: seq<Like>, user: Id, kind: Kind, t: Id)
    requires WellFormed(likes)
    ensures Count(likes, Filter(user, kind, Some(t))) <= 1
  {
    var p := Filter(user, kind, Some(t));
    forall i, j | 0 <= i < j < |likes| ensures !(p(likes[i]) && p(likes[j])) {
      assert !SameKey(likes[i], likes[j]);
    }
    CountAtMostOne(likes, p);
  }

  lemma WellFormedRemoveAt(likes: seq<Like>, i: nat)
    requires WellFormed(likes)
    requires i < |likes|
    ensures WellFormed(RemoveAt(likes, i))
  {
    var out := RemoveAt(likes, i);
    forall a, b | 0 <= a < b < |out| ensures !SameKey(out[a], out[b]) {
      var a' := if a < i then a else a + 1;
      var b' := if b < i then b else b + 1;
      assert out[a] == likes[a'] && out[b] == likes[b'];
    }
    forall k | 0 <= k < |out| ensures SingleTarget(out[k]) {
      assert out[k] == likes[if k < i then k else k + 1];
    }
  }

  lemma WellFormedAppend(likes: seq<Like>, d: Like)
    requires WellFormed(likes)
    requires SingleTarget(d)
    requires forall k :: 0 <= k < |likes| ==> !SameKey(likes[k], d)
    ensures WellFormed(likes + [d])
  {
    var out := likes + [d];
    forall a, b | 0 <= a < b < |out| ensures !SameKey(out[a], out[b]) {
      if b == |likes| {
        assert out[a] == likes[a] && out[b] == d;
      } else {
        assert out[a] == likes[a] && out[b] == likes[b];
      }
    }
  }

  /** Every toggle keeps the collection well-formed. */
  lemma ToggleLikeKeepsWellFormed(likes: seq<Like>, caller: ObjectId, kind: Kind, target: Field)
    requires WellFormed(likes)
    requires ToggleLike(likes, caller, kind, target).Ok?
    ensures WellFormed(ToggleLike(likes, caller, kind, target).value.likes)
  {
    var p := Filter(caller, kind, target);
    var d := NewLike(caller, kind, target);
    var r := Toggle(likes, p, d);
    assert ToggleLike(likes, caller, kind, target).value.likes == r.docs;
    match FindFirst(likes, p)
    case Some(i) =>
      assert r.docs == RemoveAt(likes, i);
      WellFormedRemoveAt(likes, i);
    case None =>
      forall k | 0 <= k < |likes| ensures !SameKey(likes[k], d) {
        assert !p(likes[k]);
      }
      WellFormedAppend(likes, d);
  }

  /** With a well-formed target id, the handler's new collection is the toggle's. */
  lemma ToggleLikeDocs(likes: seq<Like>, caller: ObjectId, kind: Kind, t: Id)
    requires IsValidObjectId(t)
    ensures ToggleLike(likes, caller, kind, Some(t)).Ok?
    ensures ToggleLike(likes, caller, kind, Some(t)).value.likes ==
            Toggle(likes, Filter(caller, kind, Some(t)), NewLike(caller, kind, Some(t))).docs
  {
  }

  /** Two toggles of the same key in a row from absence restore the
      collection exactly; from presence they restore the same likes, with the
      re-created one now last. */
  lemma ToggleLikeTwice(likes: seq<Like>, caller: ObjectId, kind: Kind, t: Id)
    requires WellFormed(likes)
    requires IsValidObjectId(t)
    ensures var once := ToggleLike(likes, caller, kind, Some(t)).value.likes;
            var twice := ToggleLike(once, caller, kind, Some(t)).value.likes;
            && (Count(likes, Filter(caller, kind, Some(t))) == 0 ==> twice == likes)
            && multiset(twice) == multiset(likes)
  {
    var p := Filter(caller, kind, Some(t));
    var d := NewLike(caller, kind, Some(t));
    ToggleLikeDocs(likes, caller, kind, t);
    ToggleLikeDocs(Toggle(likes, p, d).docs, caller, kind, t);
    AtMostOneLikePerKey(likes, caller, kind, t);
    if Count(likes, p) == 0 {
      ToggleTwiceFromAbsent(likes, p, d);
    } else {
      forall k | 0 <= k < |likes| && p(likes[k]) ensures likes[k] == d {
        assert SingleTarget(likes[k]);
      }
      ToggleTwiceFromPresent(likes, p, d);
    }
  }

  /** A toggle with a target id leaves the likes of every other key alone: a
      video like never touches a comment or tweet like, nor another user's. */
  lemma ToggleLikeIsolation(likes: seq<Like>, caller: ObjectId, kind: Kind, t: Id,
                            user: Id, otherKind: Kind, other: Id)
    requires WellFormed(likes)
    requires IsValidObjectId(t)
    requires (user, otherKind, other) != (caller, kind, t)
    ensures var r := ToggleLike(likes, caller, kind, Some(t));
            Keep(r.value.likes, Filter(user, otherKind, Some(other)))
              == Keep(likes, Filter(user, otherKind, Some(other)))
  {
    var p := Filter(caller, kind, Some(t));
    var q := Filter(user, otherKind, Some(other));
    forall k | 0 <= k < |likes| && p(likes[k]) ensures !q(likes[k]) {
      assert SingleTarget(likes[k]);
    }
    ToggleLeavesOthers(likes, p, q, NewLike(caller, kind, Some(t)));
  }

  /** `getLikedVideos`: every like the caller made, whatever its target kind.
      The "No liked videos found!" branch never fires: an empty array is truthy. */
  function GetLikedVideos(likes: seq<Like>, caller: ObjectId): (r: Result<seq<Like>>)
    ensures r.Ok?
    ensures forall k :: 0 <= k < |r.value| ==> r.value[k].likedBy == caller
    ensures forall k :: 0 <= k < |likes| && likes[k].likedBy == caller ==> likes[k] in r.value
    ensures forall l :: multiset(r.value)[l] == (if l.likedBy == caller then multiset(likes)[l] else 0)
  {
    var userId: Field := Some(caller);
    if !Truthy(userId) then Fail(400, "Give user info!")
    else
      KeepMultiplicity(likes, (l: Like) => l.likedBy == caller);
      Ok(Keep(likes, (l: Like) => l.likedBy == caller))
  }
}
