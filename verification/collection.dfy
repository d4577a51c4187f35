/** A document collection seen through the few queries the handlers issue:
    `findOne` returns the first match in natural order, `deleteOne` removes it,
    `create` appends, and `$match` + `$group` counts. The toggle handlers
    (likes, subscriptions) are instances of `Toggle` below. */
module Collection {
  import opened Js

  /** Number of documents the filter `p` matches. */
  function Count<D>(s: seq<D>, p: D -> bool): (n: nat)
    ensures n <= |s|
  {
    if s == [] then 0 else (if p(s[0]) then 1 else 0) + Count(s[1..], p)
  }

  /** The documents the filter `p` matches, in natural order (a `find`). */
  function Keep<D>(s: seq<D>, p: D -> bool): (r: seq<D>)
    ensures |r| == Count(s, p)
    ensures forall k :: 0 <= k < |r| ==> p(r[k])
    ensures forall k :: 0 <= k < |s| && p(s[k]) ==> s[k] in r
    ensures forall k :: 0 <= k < |r| ==> r[k] in s
    ensures multiset(r) <= multiset(s)
  {
    if s == [] then []
    else
      var rest := Keep(s[1..], p);
      assert s == [s[0]] + s[1..];
      assert multiset(s) == multiset{s[0]} + multiset(s[1..]);
      var r := if p(s[0]) then [s[0]] + rest else rest;
      assert forall k :: 0 <= k < |s| && p(s[k]) ==> s[k] in r by {
        forall k | 0 <= k < |s| && p(s[k]) ensures s[k] in r {
          if k > 0 {
            assert s[k] == s[1..][k - 1];
          }
        }
      }
      r
  }

  /** Position of the first document `p` matches, as `findOne` sees it. */
  function FindFirst<D>(s: seq<D>, p: D -> bool): (r: Option<nat>)
    ensures r.None? <==> forall k :: 0 <= k < |s| ==> !p(s[k])
    ensures r.Some? ==> r.value < |s| && p(s[r.value])
    ensures r.Some? ==> forall k :: 0 <= k < r.value ==> !p(s[k])
  {
    if s == [] then None
    else if p(s[0]) then Some(0)
    else match FindFirst(s[1..], p)
      case None => None
      case Some(i) => Some(i + 1)
  }

  /** The collection after `deleteOne` on the document at position `i`. */
  function RemoveAt<D>(s: seq<D>, i: nat): seq<D>
    requires i < |s|
  {
    s[..i] + s[i + 1..]
  }

  /** A filter matches nothing exactly when its count is zero. */
  lemma {:induction false} CountZero<D>(s: seq<D>, p: D -> bool)
    ensures Count(s, p) == 0 <==> forall k :: 0 <= k < |s| ==> !p(s[k])
  {
    if s != [] {
      CountZero(s[1..], p);
      assert forall k :: 1 <= k < |s| ==> s[k] == s[1..][k - 1];
    }
  }

  /** A filter no two documents both satisfy matches at most one of them. */
  lemma {:induction false} CountAtMostOne<D>(s: seq<D>, p: D -> bool)
    requires forall i, j :: 0 <= i < j < |s| ==> !(p(s[i]) && p(s[j]))
    ensures Count(s, p) <= 1
  {
    if s != [] {
      var t := s[1..];
      assert forall i, j :: 0 <= i < j < |t| ==> t[i] == s[i + 1] && t[j] == s[j + 1];
      CountAtMostOne(t, p);
      if p(s[0]) {
        assert forall k :: 0 <= k < |t| ==> t[k] == s[k + 1] && !p(s[k + 1]);
        CountZero(t, p);
      }
    }
  }

  lemma {:induction false} CountAppend<D>(s: seq<D>, p: D -> bool, d: D)
    ensures Count(s + [d], p) == Count(s, p) + (if p(d) then 1 else 0)
  {
    if s != [] {
      assert (s + [d])[1..] == s[1..] + [d];
      CountAppend(s[1..], p, d);
    }
  }

  lemma {:induction false} CountRemoveAt<D>(s: seq<D>, p: D -> bool, i: nat)
    requires i < |s|
    ensures Count(RemoveAt(s, i), p) == Count(s, p) - (if p(s[i]) then 1 else 0)
  {
    if i > 0 {
      assert RemoveAt(s, i)[1..] == RemoveAt(s[1..], i - 1);
      CountRemoveAt(s[1..], p, i - 1);
    } else {
      assert RemoveAt(s, 0) == s[1..];
    }
  }

  /** `Keep` returns each matching document as often as it is stored. */
  lemma {:induction false} KeepMultiplicity<D>(s: seq<D>, p: D -> bool)
    ensures forall x :: multiset(Keep(s, p))[x] == (if p(x) then multiset(s)[x] else 0)
  {
    if s != [] {
      KeepMultiplicity(s[1..], p);
      assert s == [s[0]] + s[1..];
      assert multiset(s) == multiset{s[0]} + multiset(s[1..]);
    }
  }

  lemma {:induction false} KeepAppend<D>(s: seq<D>, p: D -> bool, d: D)
    ensures Keep(s + [d], p) == Keep(s, p) + (if p(d) then [d] else [])
  {
    if s == [] {
      assert Keep([d], p) == (if p(d) then [d] else []) by {
        assert [d][1..] == [];
      }
      assert s + [d] == [d];
    } else {
      assert (s + [d])[0] == s[0];
      assert (s + [d])[1..] == s[1..] + [d];
      KeepAppend(s[1..], p, d);
    }
  }

  lemma {:induction false} KeepRemoveAt<D>(s: seq<D>, p: D -> bool, i: nat)
    requires i < |s|
    requires !p(s[i])
    ensures Keep(RemoveAt(s, i), p) == Keep(s, p)
  {
    if i > 0 {
      assert RemoveAt(s, i)[1..] == RemoveAt(s[1..], i - 1);
      KeepRemoveAt(s[1..], p, i - 1);
    } else {
      assert RemoveAt(s, 0) == s[1..];
    }
  }

  /** What a toggle did: deleted the first match, or created `made` at the end. */
  datatype Toggled<D> = Removed(docs: seq<D>, gone: D) | Created(docs: seq<D>, made: D)

  /** `findOne(filter)`; if found, `deleteOne()` it; otherwise `create(doc)`.
      `p` is the filter and `doc` the document the create call builds. */
  function Toggle<D>(s: seq<D>, p: D -> bool, doc: D): (r: Toggled<D>)
    ensures r.Removed? <==> Count(s, p) > 0
    ensures r.Removed? ==> exists i :: 0 <= i < |s| && s[i] == r.gone && r.docs == s[..i] + s[i + 1..]
    ensures r.Removed? ==> FindFirst(s, p).Some? && r.docs == RemoveAt(s, FindFirst(s, p).value)
    ensures r.Removed? ==> p(r.gone) && |r.docs| == |s| - 1
                           && Count(r.docs, p) == Count(s, p) - 1
                           && multiset(r.docs) + multiset{r.gone} == multiset(s)
    ensures r.Created? ==> r.docs == s + [doc] && r.made == doc
  {
    CountZero(s, p);
    match FindFirst(s, p)
    case Some(i) =>
      CountRemoveAt(s, p, i);
      assert s == s[..i] + [s[i]] + s[i + 1..];
      Removed(RemoveAt(s, i), s[i])
    case None => Created(s + [doc], doc)
  }

  /** When the filter matches what the create call builds, a toggle moves the
      match count between zero and one: a collection that starts with at most
      one match keeps at most one after any number of toggles. */
  lemma ToggleFlipsCount<D>(s: seq<D>, p: D -> bool, doc: D)
    requires p(doc)
    requires Count(s, p) <= 1
    ensures Count(Toggle(s, p, doc).docs, p) == 1 - Count(s, p)
  {
    if Count(s, p) == 0 {
      CountAppend(s, p, doc);
    }
  }

  /** Toggling twice from absence restores the collection exactly. */
  lemma ToggleTwiceFromAbsent<D>(s: seq<D>, p: D -> bool, doc: D)
    requires p(doc)
    requires Count(s, p) == 0
    ensures Toggle(Toggle(s, p, doc).docs, p, doc) == Removed(s, doc)
  {
    var t := s + [doc];
    CountZero(s, p);
    assert forall k :: 0 <= k < |s| ==> t[k] == s[k];
    assert t[|s|] == doc;
    assert FindFirst(t, p) == Some(|s|);
    assert RemoveAt(t, |s|) == s;
  }

  /** Toggling twice from presence restores the same documents (the re-created
      one now sits at the end), provided the filter's only match is exactly
      the document the create call builds. */
  lemma ToggleTwiceFromPresent<D>(s: seq<D>, p: D -> bool, doc: D)
    requires Count(s, p) == 1
    requires forall k :: 0 <= k < |s| && p(s[k]) ==> s[k] == doc
    ensures var t := Toggle(Toggle(s, p, doc).docs, p, doc);
            t.Created? && multiset(t.docs) == multiset(s)
  {
    var r := Toggle(s, p, doc);
    CountZero(r.docs, p);
    CountZero(s, p);
    assert r.gone == doc by {
      var i := FindFirst(s, p).value;
      assert r.gone == s[i];
    }
  }

  /** A toggle leaves every other filter's result untouched, as long as no
      document of that other filter is one this toggle could delete or create. */
  lemma ToggleLeavesOthers<D>(s: seq<D>, p: D -> bool, q: D -> bool, doc: D)
    requires forall k :: 0 <= k < |s| && p(s[k]) ==> !q(s[k])
    requires !q(doc)
    ensures Keep(Toggle(s, p, doc).docs, q) == Keep(s, q)
  {
    match FindFirst(s, p)
    case Some(i) => KeepRemoveAt(s, q, i);
    case None => KeepAppend(s, q, doc);
  }

  /** One `$group` output document: `{_id, total}`. The default object the
      subscriber count falls back to has no `_id`, which is `None`. */
  datatype GroupCount = GroupCount(id: Option<Id>, total: nat)

  /** `$match` on one key followed by `$group` on a constant `_id`: no output
      document when nothing matched, otherwise one holding the count. */
  function GroupByKey(key: Id, n: nat): (r: seq<GroupCount>)
    ensures |r| <= 1
    ensures r == [] <==> n == 0
    ensures r != [] ==> r[0].total == n && r[0].id == Some(key)
  {
    if n == 0 then [] else [GroupCount(Some(key), n)]
  }
}
