/** `extractPublicId(url)`: the first capture group of
    `/upload\/(?:v\d+\/)?(.+)\.\w+$/` matched against the URL, as ECMAScript
    regular expressions match (section 22.2 of ECMA-262): the leftmost start
    position wins, the optional version group is tried before skipping it,
    and the greedy `(.+)` backtracks only as far as the last `.`. Without the
    `s` flag `.` does not match a line terminator; without `m`, `$` is the end
    of the input. `None` is the `null` match whose `[1]` the caller then reads,
    which throws a TypeError. */
module PublicId {
  import opened Js

  const Upload := "upload/"

  predicate IsDigit(c: char) {
    '0' <= c <= '9'
  }

  /** `\w`. */
  predicate IsWordChar(c: char) {
    ('a' <= c <= 'z') || ('A' <= c <= 'Z') || ('0' <= c <= '9') || c == '_'
  }

  /** The characters `.` does not match. */
  predicate IsLineTerminator(c: char) {
    c == '\n' || c == '\r' || c as int == 0x2028 || c as int == 0x2029
  }

  /** Length of the run of digits starting at `i`. */
  function DigitRun(s: string, i: nat): (n: nat)
    requires i <= |s|
    ensures i + n <= |s|
    ensures forall k :: i <= k < i + n ==> IsDigit(s[k])
    ensures i + n < |s| ==> !IsDigit(s[i + n])
    decreases |s| - i
  {
    if i < |s| && IsDigit(s[i]) then 1 + DigitRun(s, i + 1) else 0
  }

  /** `v\d+\/` matches the first `m` characters of `rest`. */
  ghost predicate VersionAt(rest: string, m: nat) {
    3 <= m <= |rest| && rest[0] == 'v' && rest[m - 1] == '/'
    && forall k :: 1 <= k < m - 1 ==> IsDigit(rest[k])
  }

  /** How much of `rest` the optional group `(?:v\d+\/)` takes when it matches. */
  function VersionLen(rest: string): (r: Option<nat>)
    ensures r.Some? ==> VersionAt(rest, r.value)
    ensures forall m: nat :: VersionAt(rest, m) ==> r == Some(m)
  {
    if |rest| >= 1 && rest[0] == 'v' then
      var n := DigitRun(rest, 1);
      if n >= 1 && 1 + n < |rest| && rest[1 + n] == '/' then Some(n + 2) else None
    else None
  }

  /** Position of the last `.` in `t`. */
  function LastDot(t: string): (r: Option<nat>)
    ensures r.Some? ==> r.value < |t| && t[r.value] == '.'
                        && forall k :: r.value < k < |t| ==> t[k] != '.'
    ensures r.None? ==> forall k :: 0 <= k < |t| ==> t[k] != '.'
  {
    if t == [] then None
    else if t[|t| - 1] == '.' then Some(|t| - 1)
    else LastDot(t[..|t| - 1])
  }

  /** `(.+)\.\w+$` matches all of `t` with the dot at `d`. */
  ghost predicate TailAt(t: string, d: int) {
    && 1 <= d && d + 1 < |t| && t[d] == '.'
    && (forall k :: 0 <= k < d ==> !IsLineTerminator(t[k]))
    && (forall k :: d < k < |t| ==> IsWordChar(t[k]))
  }

  /** The capture of `(.+)\.\w+$` anchored at the start of `t`: everything
      before the last dot, when the match exists. */
  function Tail(t: string): (r: Option<string>)
    ensures r.Some? ==> TailAt(t, |r.value|) && r.value == t[..|r.value|]
    ensures forall d :: TailAt(t, d) ==> r == Some(t[..d])
  {
    match LastDot(t)
    case None => None
    case Some(d) =>
      if 1 <= d && d + 1 < |t| && (forall k :: 0 <= k < d ==> !IsLineTerminator(t[k]))
         && (forall k :: d < k < |t| ==> IsWordChar(t[k]))
      then Some(t[..d])
      else None
  }

  /** The match attempt right after an `upload/`: with the version group first,
      and again without it when the rest then fails. */
  function AfterUpload(rest: string): (r: Option<string>)
    ensures r.Some? ==> Tail(rest) == r || (VersionLen(rest).Some? && Tail(rest[VersionLen(rest).value..]) == r)
    ensures r.None? ==> Tail(rest).None?
  {
    match VersionLen(rest)
    case Some(m) =>
      (match Tail(rest[m..])
       case Some(c) => Some(c)
       case None => Tail(rest))
    case None => Tail(rest)
  }

  /** `upload/` occurs at position `p` of `s`. */
  predicate UploadAt(s: string, p: int) {
    0 <= p && p + |Upload| <= |s| && s[p..p + |Upload|] == Upload
  }

  /** The regex search from start position `p` onwards. */
  function Search(url: string, p: nat): (r: Option<string>)
    requires p <= |url|
    ensures r.Some? ==> exists q :: p <= q && UploadAt(url, q) && AfterUpload(url[q + |Upload|..]) == r
    ensures (forall q :: p <= q ==> !UploadAt(url, q)) ==> r.None?
    decreases |url| - p
  {
    if p + |Upload| > |url| then None
    else if UploadAt(url, p) && AfterUpload(url[p + |Upload|..]).Some? then AfterUpload(url[p + |Upload|..])
    else Search(url, p + 1)
  }

  /** `extractPublicId(url)`; `None` where the source throws. */
  function ExtractPublicId(url: string): (r: Option<string>)
    ensures r.Some? ==> exists q :: UploadAt(url, q) && AfterUpload(url[q + |Upload|..]) == r
    ensures (forall q :: !UploadAt(url, q)) ==> r.None?
  {
    Search(url, 0)
  }

  /** Start positions without an `upload/` do not change the search. */
  lemma {:induction false} SearchSkip(url: string, p: nat, q: nat)
    requires p <= q <= |url|
    requires forall k :: p <= k < q ==> !UploadAt(url, k)
    ensures Search(url, p) == Search(url, q)
    decreases q - p
  {
    if p < q {
      SearchSkip(url, p + 1, q);
    }
  }

  /** `upload/` cannot begin inside `prefix` when `prefix` does not contain it:
      the word has no proper border, so no occurrence straddles the join. */
  lemma NoUploadBefore(prefix: string, tail: string)
    requires forall k :: !UploadAt(prefix, k)
    ensures forall k :: 0 <= k < |prefix| ==> !UploadAt(prefix + Upload + tail, k)
  {
    var s := prefix + Upload + tail;
    forall k | 0 <= k < |prefix| ensures !UploadAt(s, k) {
      if k + |Upload| <= |prefix| {
        assert s[k..k + |Upload|] == prefix[k..k + |Upload|];
        assert !UploadAt(prefix, k);
      } else if k + |Upload| <= |s| {
        var j := |prefix| - k;
        assert s[k..k + |Upload|][j] == s[|prefix|] == 'u';
        assert Upload[j] != 'u';
      }
    }
  }

  /** A capture and an extension join into a tail whose match gives the capture back. */
  lemma TailOfJoin(c: string, ext: string)
    requires c != [] && forall k :: 0 <= k < |c| ==> !IsLineTerminator(c[k])
    requires ext != [] && forall k :: 0 <= k < |ext| ==> IsWordChar(ext[k])
    ensures Tail(c + "." + ext) == Some(c)
  {
    var t := c + "." + ext;
    assert t[|c|] == '.';
    assert forall k :: 0 <= k < |c| ==> t[k] == c[k];
    assert forall k :: |c| < k < |t| ==> t[k] == ext[k - |c| - 1];
    assert TailAt(t, |c|);
    assert t[..|c|] == c;
  }

  /** After `upload/`, a version segment and then `<id>.<ext>` capture `id`. */
  lemma AfterUploadVersioned(digits: string, id: string, ext: string)
    requires digits != [] && forall k :: 0 <= k < |digits| ==> IsDigit(digits[k])
    requires id != [] && forall k :: 0 <= k < |id| ==> !IsLineTerminator(id[k])
    requires ext != [] && forall k :: 0 <= k < |ext| ==> IsWordChar(ext[k])
    ensures AfterUpload("v" + digits + "/" + id + "." + ext) == Some(id)
  {
    var rest := "v" + digits + "/" + id + "." + ext;
    var m := |digits| + 2;
    assert rest[0] == 'v' && rest[m - 1] == '/';
    assert forall k :: 1 <= k < m - 1 ==> rest[k] == digits[k - 1];
    assert VersionAt(rest, m);
    assert rest[m..] == id + "." + ext;
    TailOfJoin(id, ext);
  }

  /** The search finds the first `upload/` whose match succeeds. */
  lemma SearchFinds(url: string, at: nat)
    requires forall k :: 0 <= k < at ==> !UploadAt(url, k)
    requires UploadAt(url, at)
    requires AfterUpload(url[at + |Upload|..]).Some?
    ensures ExtractPublicId(url) == AfterUpload(url[at + |Upload|..])
  {
    SearchSkip(url, 0, at);
  }

  /** A URL built the way the media host builds them, `<prefix>upload/v<digits>/<id>.<ext>`,
      gives back `id`, whatever `/` or `.` the id itself holds. */
  lemma ExtractBuiltUrl(prefix: string, digits: string, id: string, ext: string)
    requires forall k :: !UploadAt(prefix, k)
    requires digits != [] && forall k :: 0 <= k < |digits| ==> IsDigit(digits[k])
    requires id != [] && forall k :: 0 <= k < |id| ==> !IsLineTerminator(id[k])
    requires ext != [] && forall k :: 0 <= k < |ext| ==> IsWordChar(ext[k])
    ensures ExtractPublicId(prefix + Upload + ("v" + digits + "/" + id + "." + ext)) == Some(id)
  {
    var rest := "v" + digits + "/" + id + "." + ext;
    var url := prefix + Upload + rest;
    NoUploadBefore(prefix, rest);
    assert url[|prefix|..|prefix| + |Upload|] == Upload;
    assert url[|prefix| + |Upload|..] == rest;
    AfterUploadVersioned(digits, id, ext);
    SearchFinds(url, |prefix|);
  }

  /** A string without the letter `u` holds no `upload/`. */
  lemma NoLetterU(s: string)
    requires forall k :: 0 <= k < |s| ==> s[k] != 'u'
    ensures forall q :: !UploadAt(s, q)
  {
    forall q ensures !UploadAt(s, q) {
      if 0 <= q && q + |Upload| <= |s| {
        assert s[q..q + |Upload|][0] == s[q];
      }
    }
  }

  /** The documented example, behind any host prefix that holds no
      `upload/`: the version segment is skipped and the extension dropped. */
  lemma ExtractExampleNested(prefix: string, url: string)
    requires forall k :: !UploadAt(prefix, k)
    requires url == prefix + "upload/v12/a/b.jpg"
    ensures ExtractPublicId(url) == Some("a/b")
  {
    assert forall k :: 0 <= k < |"12"| ==> IsDigit("12"[k]);
    assert forall k :: 0 <= k < |"a/b"| ==> !IsLineTerminator("a/b"[k]);
    assert forall k :: 0 <= k < |"jpg"| ==> IsWordChar("jpg"[k]);
    assert url == prefix + Upload + ("v" + "12" + "/" + "a/b" + "." + "jpg");
    ExtractBuiltUrl(prefix, "12", "a/b", "jpg");
  }

  /** The greedy capture keeps every dot but the last. */
  lemma ExtractExampleDotted(prefix: string, url: string)
    requires forall k :: !UploadAt(prefix, k)
    requires url == prefix + "upload/v12/a.b.jpg"
    ensures ExtractPublicId(url) == Some("a.b")
  {
    assert forall k :: 0 <= k < |"12"| ==> IsDigit("12"[k]);
    assert forall k :: 0 <= k < |"a.b"| ==> !IsLineTerminator("a.b"[k]);
    assert forall k :: 0 <= k < |"jpg"| ==> IsWordChar("jpg"[k]);
    assert url == prefix + Upload + ("v" + "12" + "/" + "a.b" + "." + "jpg");
    ExtractBuiltUrl(prefix, "12", "a.b", "jpg");
  }

  /** When the rest after the version fails, the match backtracks and the
      version segment becomes part of the capture. */
  lemma VersionGroupBacktracks()
    ensures AfterUpload("v12/.jpg") == Some("v12/")
  {
    var rest := "v12/.jpg";
    assert VersionAt(rest, 4);
    assert rest[4..] == ".jpg";
    assert forall d :: 1 <= d < 4 ==> ".jpg"[d] != '.';
    assert Tail(".jpg") == None;
    assert TailAt(rest, 4);
    assert rest[..4] == "v12/";
  }

  /** A URL without `upload/` has no public id: the caller's `[1]` throws. */
  lemma NoUploadNoId(url: string)
    requires forall q :: !UploadAt(url, q)
    ensures ExtractPublicId(url) == None
  {
  }

  /** For example, a URL from another host. */
  lemma ForeignUrlNoId()
    ensures ExtractPublicId("https://example.com/a.jpg") == None
  {
    var url := "https://example.com/a.jpg";
    assert forall k :: 0 <= k < |url| ==> url[k] != 'u';
    NoLetterU(url);
    NoUploadNoId(url);
  }
}
