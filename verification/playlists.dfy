/** The playlist controller over the playlist collection, keyed by id. No
    handler checks that the caller owns the playlist it changes; only create
    reads the caller, to record the owner and to scope the title check. */
module Playlists {
  import opened Js
  import opened ApiErrors
  import opened Collection

  /** A Playlist document; `videos` holds video ids in insertion order. */
  datatype Playlist = Playlist(title: string, description: string, owner: Id, videos: seq<Id>)

  type Playlists = map<Id, Playlist>

  /** What a successful write sends back: the collection afterwards and the
      saved playlist. */
  datatype Saved = Saved(playlists: Playlists, playlist: Playlist)

  /** Some playlist of `owner` already has this exact title. */
  predicate TitleTaken(store: Playlists, owner: Id, title: string) {
    exists k :: k in store && store[k].owner == owner && store[k].title == title
  }

  /** `createPlaylist`. `newId` is the id the database assigns to the new document. */
  function CreatePlaylist(store: Playlists, caller: ObjectId, title: Field, description: Field, newId: Id)
    : (r: Result<Saved>)
    requires newId !in store
    ensures IsApiError(r, 400, "Playlist title is required!") <==> MissingOrBlank(title)
    ensures IsApiError(r, 400, "Playlist description is required!")
            <==> !MissingOrBlank(title) && MissingOrBlank(description)
    ensures IsApiError(r, 400, "Playlist with this title already exists!")
            <==> !MissingOrBlank(title) && !MissingOrBlank(description)
                 && TitleTaken(store, caller, Trim(title.value))
    ensures r.Err? <==> MissingOrBlank(title) || MissingOrBlank(description)
                        || TitleTaken(store, caller, Trim(title.value))
    ensures r.Ok? ==>
              && r.value.playlist == Playlist(Trim(title.value), Trim(description.value), caller, [])
              && r.value.playlists.Keys == store.Keys + {newId}
              && r.value.playlists[newId] == r.value.playlist
              && (forall k :: k in store ==> r.value.playlists[k] == store[k])
  {
    if MissingOrBlank(title) then Fail(400, "Playlist title is required!")
    else if MissingOrBlank(description) then Fail(400, "Playlist description is required!")
    else if TitleTaken(store, caller, Trim(title.value)) then Fail(400, "Playlist with this title already exists!")
    else
      var doc := Playlist(Trim(title.value), Trim(description.value), caller, []);
      Ok(Saved(store[newId := doc], doc))
  }

  /** The id checks every handler that names a playlist starts with, and the lookup. */
  function FindPlaylist(store: Playlists, playlistId: Field): (r: Result<Id>)
    ensures IsApiError(r, 400, "Playlist Id is required!") <==> !Truthy(playlistId)
    ensures IsApiError(r, 400, "Invalid Playlist Id!")
            <==> Truthy(playlistId) && !IsValidObjectId(playlistId.value)
    ensures IsApiError(r, 404, "Playlist not found!")
            <==> Truthy(playlistId) && IsValidObjectId(playlistId.value) && playlistId.value !in store
    ensures r.Err? <==> !Truthy(playlistId) || !IsValidObjectId(playlistId.value) || playlistId.value !in store
    ensures r.Ok? ==> r.value == playlistId.value && r.value in store
  {
    if !Truthy(playlistId) then Fail(400, "Playlist Id is required!")
    else if !IsValidObjectId(playlistId.value) then Fail(400, "Invalid Playlist Id!")
    else if playlistId.value !in store then Fail(404, "Playlist not found!")
    else Ok(playlistId.value)
  }

  /** `getPlaylistById`. */
  function GetPlaylistById(store: Playlists, playlistId: Field): (r: Result<Playlist>)
    ensures r.Err? <==> FindPlaylist(store, playlistId).Err?
    ensures r.Err? ==> r == FindPlaylist(store, playlistId).PropagateFailure()
    ensures r.Ok? ==> playlistId.Some? && playlistId.value in store && r.value == store[playlistId.value]
  {
    var id :- FindPlaylist(store, playlistId);
    Ok(store[id])
  }

  /** The checks add and remove run before the lookup, in source order. */
  function CheckIds(playlistId: Field, videoId: Field): (r: Result<()>)
    ensures r.Ok? <==> Truthy(playlistId) && Truthy(videoId)
                       && IsValidObjectId(playlistId.value) && IsValidObjectId(videoId.value)
    ensures IsApiError(r, 400, "Playlist Id is required!") <==> !Truthy(playlistId)
    ensures IsApiError(r, 400, "Video Id is required!") <==> Truthy(playlistId) && !Truthy(videoId)
    ensures IsApiError(r, 400, "Invalid Playlist Id!")
            <==> Truthy(playlistId) && Truthy(videoId) && !IsValidObjectId(playlistId.value)
    ensures IsApiError(r, 400, "Invalid Video Id!")
            <==> Truthy(playlistId) && Truthy(videoId) && IsValidObjectId(playlistId.value)
                 && !IsValidObjectId(videoId.value)
  {
    if !Truthy(playlistId) then Fail(400, "Playlist Id is required!")
    else if !Truthy(videoId) then Fail(400, "Video Id is required!")
    else if !IsValidObjectId(playlistId.value) then Fail(400, "Invalid Playlist Id!")
    else if !IsValidObjectId(videoId.value) then Fail(400, "Invalid Video Id!")
    else Ok(())
  }

  /** `addVideoToPlaylist`: appends the video unless it is already listed. */
  function AddVideoToPlaylist(store: Playlists, playlistId: Field, videoId: Field): (r: Result<Saved>)
    ensures CheckIds(playlistId, videoId).Err? ==> r == CheckIds(playlistId, videoId).PropagateFailure()
    ensures CheckIds(playlistId, videoId).Ok? ==>
              (IsApiError(r, 404, "Playlist not found!") <==> playlistId.value !in store)
    ensures CheckIds(playlistId, videoId).Ok? && playlistId.value in store ==>
              (IsApiError(r, 400, "Video already exists in playlist!") <==>
                 videoId.value in store[playlistId.value].videos)
    ensures r.Ok? ==>
              && CheckIds(playlistId, videoId).Ok?
              && playlistId.value in store
              && videoId.value !in store[playlistId.value].videos
              && r.value.playlist == store[playlistId.value].(videos := store[playlistId.value].videos + [videoId.value])
              && r.value.playlists.Keys == store.Keys
              && r.value.playlists[playlistId.value] == r.value.playlist
              && (forall k :: k in store && k != playlistId.value ==> r.value.playlists[k] == store[k])
  {
    var _ :- CheckIds(playlistId, videoId);
    var pid := playlistId.value;
    var vid := videoId.value;
    if pid !in store then Fail(404, "Playlist not found!")
    else if vid in store[pid].videos then Fail(400, "Video already exists in playlist!")
    else
      var p := store[pid].(videos := store[pid].videos + [vid]);
      Ok(Saved(store[pid := p], p))
  }

  /** `videos.pull(v)`: every occurrence of `v` removed, the rest in order. */
  function Pull(videos: seq<Id>, v: Id): (r: seq<Id>)
    ensures v !in r
    ensures forall w :: w != v ==> (w in r <==> w in videos)
  {
    Keep(videos, (w: Id) => w != v)
  }

  /** `removeVideoFromPlaylist`: pulls the video if it is listed. */
  function RemoveVideoFromPlaylist(store: Playlists, playlistId: Field, videoId: Field): (r: Result<Saved>)
    ensures CheckIds(playlistId, videoId).Err? ==> r == CheckIds(playlistId, videoId).PropagateFailure()
    ensures CheckIds(playlistId, videoId).Ok? ==>
              (IsApiError(r, 404, "Playlist not found!") <==> playlistId.value !in store)
    ensures CheckIds(playlistId, videoId).Ok? && playlistId.value in store ==>
              (IsApiError(r, 400, "Video do not exists in playlist!") <==>
                 videoId.value !in store[playlistId.value].videos)
    ensures r.Ok? ==>
              && CheckIds(playlistId, videoId).Ok?
              && playlistId.value in store
              && videoId.value in store[playlistId.value].videos
              && r.value.playlist == store[playlistId.value].(videos := Pull(store[playlistId.value].videos, videoId.value))
              && r.value.playlists.Keys == store.Keys
              && r.value.playlists[playlistId.value] == r.value.playlist
              && (forall k :: k in store && k != playlistId.value ==> r.value.playlists[k] == store[k])
  {
    var _ :- CheckIds(playlistId, videoId);
    var pid := playlistId.value;
    var vid := videoId.value;
    if pid !in store then Fail(404, "Playlist not found!")
    else if vid !in store[pid].videos then Fail(400, "Video do not exists in playlist!")
    else
      var p := store[pid].(videos := Pull(store[pid].videos, vid));
      Ok(Saved(store[pid := p], p))
  }

  /** `deletePlaylist`: removes the named playlist and nothing else. */
  function DeletePlaylist(store: Playlists, playlistId: Field): (r: Result<Playlists>)
    ensures r.Err? <==> FindPlaylist(store, playlistId).Err?
    ensures r.Err? ==> r == FindPlaylist(store, playlistId).PropagateFailure()
    ensures r.Ok? ==>
              && playlistId.Some?
              && playlistId.value in store
              && r.value.Keys == store.Keys - {playlistId.value}
              && (forall k :: k in r.value ==> r.value[k] == store[k])
  {
    var id :- FindPlaylist(store, playlistId);
    Ok(store - {id})
  }

  /** `updatePlaylist`: replaces title and description with the trimmed new
      values unless they equal the current ones. */
  function UpdatePlaylist(store: Playlists, playlistId: Field, name: Field, description: Field): (r: Result<Saved>)
    ensures IsApiError(r, 400, "Playlist Id is required!") <==> !Truthy(playlistId)
    ensures IsApiError(r, 400, "Invalid Playlist Id!")
            <==> Truthy(playlistId) && !IsValidObjectId(playlistId.value)
    ensures IsApiError(r, 400, "Playlist name or description is required!")
            <==> Truthy(playlistId) && IsValidObjectId(playlistId.value)
                 && (MissingOrBlank(name) || MissingOrBlank(description))
    ensures Truthy(playlistId) && IsValidObjectId(playlistId.value)
            && !MissingOrBlank(name) && !MissingOrBlank(description) ==>
              && (IsApiError(r, 404, "Playlist not found!") <==> playlistId.value !in store)
              && (playlistId.value in store ==>
                    (IsApiError(r, 400, "Choose different ") <==>
                       store[playlistId.value].title == Trim(name.value)
                       && store[playlistId.value].description == Trim(description.value)))
    ensures r.Ok? ==>
              && playlistId.Some? && name.Some? && description.Some?
              && playlistId.value in store
              && r.value.playlist == store[playlistId.value].(title := Trim(name.value),
                                                             description := Trim(description.value))
              && r.value.playlist != store[playlistId.value]
              && r.value.playlists.Keys == store.Keys
              && r.value.playlists[playlistId.value] == r.value.playlist
              && (forall k :: k in store && k != playlistId.value ==> r.value.playlists[k] == store[k])
  {
    if !Truthy(playlistId) then Fail(400, "Playlist Id is required!")
    else if !IsValidObjectId(playlistId.value) then Fail(400, "Invalid Playlist Id!")
    else if MissingOrBlank(name) || MissingOrBlank(description) then
      Fail(400, "Playlist name or description is required!")
    else if playlistId.value !in store then Fail(404, "Playlist not found!")
    else
      var old_ := store[playlistId.value];
      if old_.title == Trim(name.value) && old_.description == Trim(description.value) then
        Fail(400, "Choose different ")
      else
        var p := old_.(title := Trim(name.value), description := Trim(description.value));
        Ok(Saved(store[playlistId.value := p], p))
  }

  // ----- invariants -----

  /** No video id is listed twice. */
  ghost predicate NoDuplicates(videos: seq<Id>) {
    forall i, j :: 0 <= i < j < |videos| ==> videos[i] != videos[j]
  }

  /** No whitespace at either end: what `trim` leaves (see `TrimTight`). */
  predicate Trimmed(t: string) {
    t == [] || (!IsWhitespace(t[0]) && !IsWhitespace(t[|t| - 1]))
  }

  /** Each playlist on its own: a trimmed title and a duplicate-free video list. */
  ghost predicate Tidy(p: Playlist) {
    Trimmed(p.title) && NoDuplicates(p.videos)
  }

  /** No two playlists of one owner share a title. */
  ghost predicate UniqueTitles(store: Playlists) {
    forall k1, k2 :: k1 in store && k2 in store && k1 != k2 && store[k1].owner == store[k2].owner
      ==> store[k1].title != store[k2].title
  }

  /** The state create maintains. */
  ghost predicate Valid(store: Playlists) {
    (forall k :: k in store ==> Tidy(store[k])) && UniqueTitles(store)
  }

  /** A pull from a list without the video changes nothing. */
  lemma {:induction false} PullAbsent(videos: seq<Id>, v: Id)
    requires v !in videos
    ensures Pull(videos, v) == videos
  {
    if videos != [] {
      assert videos[1..] == videos[1..];
      assert v !in videos[1..];
      PullAbsent(videos[1..], v);
    }
  }

  /** `Pull` works from the front of the list. */
  lemma PullCons(videos: seq<Id>, v: Id)
    requires videos != []
    ensures Pull(videos, v) == (if videos[0] != v then [videos[0]] else []) + Pull(videos[1..], v)
  {
  }

  /** The tail of a duplicate-free list is duplicate-free and lacks the head. */
  lemma NoDuplicatesTail(videos: seq<Id>)
    requires videos != []
    requires NoDuplicates(videos)
    ensures NoDuplicates(videos[1..]) && videos[0] !in videos[1..]
  {
    var t := videos[1..];
    assert forall k :: 0 <= k < |t| ==> t[k] == videos[k + 1];
  }

  /** Pulling the head of a duplicate-free list drops just the head. */
  lemma PullHead(videos: seq<Id>)
    requires videos != []
    requires NoDuplicates(videos)
    ensures Pull(videos, videos[0]) == RemoveAt(videos, 0)
  {
    NoDuplicatesTail(videos);
    PullCons(videos, videos[0]);
    PullAbsent(videos[1..], videos[0]);
  }

  /** Removing a later position keeps the head in front. */
  lemma RemoveAtCons(videos: seq<Id>, i: nat)
    requires 0 < i < |videos|
    ensures RemoveAt(videos, i) == [videos[0]] + RemoveAt(videos[1..], i - 1)
  {
  }

  /** In a duplicate-free list, pulling a listed video removes exactly its one position. */
  lemma {:induction false} PullIsRemoveAt(videos: seq<Id>, i: nat)
    requires i < |videos|
    requires NoDuplicates(videos)
    ensures Pull(videos, videos[i]) == RemoveAt(videos, i)
  {
    if i == 0 {
      PullHead(videos);
    } else {
      var v := videos[i];
      var t := videos[1..];
      NoDuplicatesTail(videos);
      assert t[i - 1] == v;
      PullIsRemoveAt(t, i - 1);
      PullCons(videos, v);
      RemoveAtCons(videos, i);
    }
  }

  /** Removing one position from a duplicate-free list leaves it duplicate-free. */
  lemma NoDuplicatesRemoveAt(videos: seq<Id>, i: nat)
    requires i < |videos|
    requires NoDuplicates(videos)
    ensures NoDuplicates(RemoveAt(videos, i))
  {
    var out := RemoveAt(videos, i);
    assert forall k :: 0 <= k < i ==> out[k] == videos[k];
    assert forall k :: i <= k < |out| ==> out[k] == videos[k + 1];
  }

  /** Pulling from a duplicate-free list leaves it duplicate-free. */
  lemma PullKeepsNoDuplicates(videos: seq<Id>, v: Id)
    requires NoDuplicates(videos)
    ensures NoDuplicates(Pull(videos, v))
  {
    if i :| 0 <= i < |videos| && videos[i] == v {
      PullIsRemoveAt(videos, i);
      NoDuplicatesRemoveAt(videos, i);
    } else {
      PullAbsent(videos, v);
    }
  }

  /** Removing a listed video from a duplicate-free list takes out exactly
      that one entry: the list loses one element and keeps the others' order. */
  lemma RemoveVideoExactlyOne(store: Playlists, playlistId: Field, videoId: Field)
    requires RemoveVideoFromPlaylist(store, playlistId, videoId).Ok?
    requires NoDuplicates(store[playlistId.value].videos)
    ensures var old_ := store[playlistId.value].videos;
            exists i :: 0 <= i < |old_| && old_[i] == videoId.value
                        && RemoveVideoFromPlaylist(store, playlistId, videoId).value.playlist.videos
                           == old_[..i] + old_[i + 1..]
  {
    var old_ := store[playlistId.value].videos;
    var i :| 0 <= i < |old_| && old_[i] == videoId.value;
    PullIsRemoveAt(old_, i);
  }

  /** Adding a video that is not listed and then removing it restores the collection. */
  lemma AddThenRemove(store: Playlists, playlistId: Field, videoId: Field)
    requires AddVideoToPlaylist(store, playlistId, videoId).Ok?
    ensures var added := AddVideoToPlaylist(store, playlistId, videoId).value.playlists;
            RemoveVideoFromPlaylist(added, playlistId, videoId) == Ok(Saved(store, store[playlistId.value]))
  {
    var pid := playlistId.value;
    var vid := videoId.value;
    var vs := store[pid].videos;
    var added := AddVideoToPlaylist(store, playlistId, videoId).value.playlists;
    assert added[pid].videos == vs + [vid];
    KeepAppend(vs, (w: Id) => w != vid, vid);
    PullAbsent(vs, vid);
    assert Pull(vs + [vid], vid) == vs;
    assert added[pid := store[pid]] == store;
  }

  /** Replacing one playlist's video list by a duplicate-free one keeps the collection valid. */
  lemma ValidWithVideos(store: Playlists, pid: Id, vs: seq<Id>)
    requires Valid(store)
    requires pid in store
    requires NoDuplicates(vs)
    ensures Valid(store[pid := store[pid].(videos := vs)])
  {
    var out := store[pid := store[pid].(videos := vs)];
    forall k | k in out ensures Tidy(out[k]) {
      if k != pid {
        assert out[k] == store[k];
      }
    }
    forall k1, k2 | k1 in out && k2 in out && k1 != k2 && out[k1].owner == out[k2].owner
      ensures out[k1].title != out[k2].title
    {
      assert out[k1].title == store[k1].title && out[k1].owner == store[k1].owner;
      assert out[k2].title == store[k2].title && out[k2].owner == store[k2].owner;
    }
  }

  /** A successful add keeps the list duplicate-free: the add refuses a video
      already listed. */
  lemma AddKeepsValid(store: Playlists, playlistId: Field, videoId: Field)
    requires Valid(store)
    requires AddVideoToPlaylist(store, playlistId, videoId).Ok?
    ensures Valid(AddVideoToPlaylist(store, playlistId, videoId).value.playlists)
  {
    var pid := playlistId.value;
    var vid := videoId.value;
    var vs := store[pid].videos;
    var out := vs + [vid];
    assert vid !in vs;
    forall a, b | 0 <= a < b < |out| ensures out[a] != out[b] {
      assert out[a] == vs[a];
      if b < |vs| {
        assert out[b] == vs[b];
      }
    }
    ValidWithVideos(store, pid, out);
    assert AddVideoToPlaylist(store, playlistId, videoId).value.playlists == store[pid := store[pid].(videos := out)];
  }

  lemma RemoveKeepsValid(store: Playlists, playlistId: Field, videoId: Field)
    requires Valid(store)
    requires RemoveVideoFromPlaylist(store, playlistId, videoId).Ok?
    ensures Valid(RemoveVideoFromPlaylist(store, playlistId, videoId).value.playlists)
  {
    var pid := playlistId.value;
    var vs := Pull(store[pid].videos, videoId.value);
    PullKeepsNoDuplicates(store[pid].videos, videoId.value);
    ValidWithVideos(store, pid, vs);
    assert RemoveVideoFromPlaylist(store, playlistId, videoId).value.playlists == store[pid := store[pid].(videos := vs)];
  }

  /** Adding a tidy playlist under a fresh id keeps the collection valid when
      its owner has no playlist of that title yet. */
  lemma InsertKeepsValid(store: Playlists, id: Id, p: Playlist)
    requires Valid(store)
    requires id !in store && Tidy(p) && !TitleTaken(store, p.owner, p.title)
    ensures Valid(store[id := p])
  {
    var out := store[id := p];
    forall k1, k2 | k1 in out && k2 in out && k1 != k2 && out[k1].owner == out[k2].owner
      ensures out[k1].title != out[k2].title
    {
      if k1 == id {
        assert out[k2] == store[k2];
      } else if k2 == id {
        assert out[k1] == store[k1];
      } else {
        assert out[k1] == store[k1] && out[k2] == store[k2];
      }
    }
  }

  /** Create keeps every owner's titles unique: the title check guards it. A
      different owner may reuse a title. */
  lemma CreateKeepsValid(store: Playlists, caller: ObjectId, title: Field, description: Field, newId: Id)
    requires newId !in store
    requires Valid(store)
    requires CreatePlaylist(store, caller, title, description, newId).Ok?
    ensures Valid(CreatePlaylist(store, caller, title, description, newId).value.playlists)
  {
    var r := CreatePlaylist(store, caller, title, description, newId).value;
    var p := r.playlist;
    assert r.playlists == store[newId := p];
    assert Trimmed(p.title);
    InsertKeepsValid(store, newId, p);
  }


  lemma DeleteKeepsValid(store: Playlists, playlistId: Field)
    requires Valid(store)
    requires DeletePlaylist(store, playlistId).Ok?
    ensures Valid(DeletePlaylist(store, playlistId).value)
  {
  }

  /** Update trims the new title and leaves the video lists alone, so every
      playlist stays tidy, though titles may clash (see below). */
  lemma UpdateKeepsTidy(store: Playlists, playlistId: Field, name: Field, description: Field)
    requires forall k :: k in store ==> Tidy(store[k])
    requires UpdatePlaylist(store, playlistId, name, description).Ok?
    ensures var out := UpdatePlaylist(store, playlistId, name, description).value.playlists;
            forall k :: k in out ==> Tidy(out[k])
  {
    var out := UpdatePlaylist(store, playlistId, name, description).value.playlists;
    assert Trimmed(out[playlistId.value].title);
  }

  /** Update does not re-check the new title against the owner's other
      playlists: renaming onto a title the same owner already uses succeeds
      and leaves that owner with two playlists of one title. */
  lemma UpdateIgnoresTitleClash(store: Playlists, playlistId: Field, name: Field, description: Field, k: Id)
    requires UpdatePlaylist(store, playlistId, name, description).Ok?
    requires k in store && k != playlistId.value
    requires store[k].owner == store[playlistId.value].owner && store[k].title == Trim(name.value)
    ensures !UniqueTitles(UpdatePlaylist(store, playlistId, name, description).value.playlists)
  {
    var out := UpdatePlaylist(store, playlistId, name, description).value.playlists;
    assert out[k] == store[k];
  }
}
