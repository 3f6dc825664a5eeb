/**
  The API client: the root it is built with, the URL of a method under
  that root, and what a response becomes. The HTTP transport is not part
  of this model; a response enters as its status code and its body, already
  decoded when it is JSON.
 */
module ApiClient {
  import opened Wrappers
  import opened Text

  /** A client; its root always ends with "/". */
  datatype Client = Client(apiRoot: string)

  predicate EndsWithSlash(s: string) {
    |s| > 0 && s[|s| - 1] == '/'
  }

  /** The constructor: adds a trailing "/" to the root unless it has one; an empty root fails with an index error. */
  function NewClient(root: string): (r: Option<Client>)
    ensures r.None? <==> root == ""
    ensures r.Some? ==> EndsWithSlash(r.value.apiRoot)
    ensures r.Some? ==> root <= r.value.apiRoot && |r.value.apiRoot| - |root| <= 1
    ensures r.Some? && EndsWithSlash(root) ==> r.value.apiRoot == root
  {
    if root == "" then None
    else if root[|root| - 1] != '/' then Some(Client(root + "/"))
    else Some(Client(root))
  }

  /** Building a client from another client's root gives the same client. */
  lemma NewClientIdempotent(root: string)
    requires NewClient(root).Some?
    ensures NewClient(NewClient(root).value.apiRoot) == NewClient(root)
  {
  }

  /** `method[:1] == "/"`: drop one leading slash. */
  function StripLeadingSlash(m: string): (r: string)
    ensures m != [] && m[0] == '/' ==> [m[0]] + r == m
    ensures (m == [] || m[0] != '/') ==> r == m
  {
    if m != [] && m[0] == '/' then m[1..] else m
  }

  /** Python's `m[:-1]`: all but the last character, empty for the empty string. */
  function DropLast(m: string): (r: string)
    ensures |m| > 0 ==> r + [m[|m| - 1]] == m
    ensures |m| == 0 ==> r == []
  {
    if |m| == 0 then [] else m[..|m| - 1]
  }

  /** The method path as the source builds it: the slash is appended unless `m[:-1]` is "/". */
  function ApiPathAsWritten(apiMethod: string): (r: string)
  {
    var m := StripLeadingSlash(apiMethod);
    if DropLast(m) != "/" then m + "/" else m
  }

  /** The method path as evidently intended: one leading slash dropped, exactly one trailing slash ensured. */
  function ApiPath(apiMethod: string): (r: string)
    ensures EndsWithSlash(r)
    ensures var m := StripLeadingSlash(apiMethod);
            if EndsWithSlash(m) then r == m else r == m + "/"
  {
    var m := StripLeadingSlash(apiMethod);
    if !EndsWithSlash(m) then m + "/" else m
  }


  /** Where the method does not end in "/" already, both agree (but for the degenerate "//x", which the source leaves unslashed). */
  lemma ApiPathAgrees(apiMethod: string)
    requires !EndsWithSlash(StripLeadingSlash(apiMethod))
    requires DropLast(StripLeadingSlash(apiMethod)) != "/"
    ensures ApiPathAsWritten(apiMethod) == ApiPath(apiMethod)
  {
  }

  /** Normalising a path that does not start with "/" a second time changes nothing. */
  lemma ApiPathIdempotent(apiMethod: string)
    requires ApiPath(apiMethod) == [] || ApiPath(apiMethod)[0] != '/'
    ensures ApiPath(ApiPath(apiMethod)) == ApiPath(apiMethod)
  {
  }

  /** A leading slash on the method makes no difference. */
  lemma ApiPathLeadingSlash(apiMethod: string)
    requires apiMethod == [] || apiMethod[0] != '/'
    ensures ApiPath("/" + apiMethod) == ApiPath(apiMethod)
  {
    assert ("/" + apiMethod)[1..] == apiMethod;
  }

  // ---------------------------------------------------------------------------
  // `urljoin(api_root, path)` for an http or https root: Python's resolution
  // of a relative reference, segment by segment.

  /** A character `urlsplit` leaves inside a path: no space or control character, no query or fragment mark. */
  predicate UrlChar(ch: char) {
    ' ' < ch && ch != '?' && ch != '#'
  }

  /** A character of a host that `urlsplit` takes as it is (ASCII, no brackets, no "/"). */
  predicate NetlocChar(ch: char) {
    UrlChar(ch) && (ch as int) < 127 && ch != '/' && ch != '[' && ch != ']'
  }

  /** A root as `urlsplit` splits it: scheme, network location and path. */
  datatype Base = Base(scheme: string, netloc: string, path: string)

  /** The scheme and the network location, as `urlunsplit` writes them. */
  function Origin(b: Base): string {
    b.scheme + "://" + b.netloc
  }

  /** The position of the first "/" in `s`, or `|s|` when there is none. */
  function SlashIndex(s: string): (i: nat)
    ensures i <= |s| && '/' !in s[..i]
    ensures i < |s| ==> s[i] == '/'
  {
    if s == [] || s[0] == '/' then 0
    else
      var j := SlashIndex(s[1..]);
      assert s[..1 + j] == [s[0]] + s[1..][..j];
      1 + j
  }

  /** The host and path after "scheme://": the host runs up to the first "/". */
  function SplitHost(scheme: string, rest: string): (b: Option<Base>)
    ensures b.Some? ==> b.value.scheme == scheme && rest == b.value.netloc + b.value.path
    ensures b.Some? ==> b.value.netloc != [] && '/' !in b.value.netloc
    ensures b.Some? ==> b.value.path != [] && b.value.path[0] == '/' && EndsWithSlash(b.value.path)
  {
    var i := SlashIndex(rest);
    var netloc, path := rest[..i], rest[i..];
    if netloc != [] && path != [] && EndsWithSlash(path)
       && (forall k :: 0 <= k < |netloc| ==> NetlocChar(netloc[k]))
       && (forall k :: 0 <= k < |path| ==> UrlChar(path[k]))
    then
      assert rest == netloc + path;
      Some(Base(scheme, netloc, path))
    else None
  }

  /**
    `urlsplit(root)` for a root with the scheme "http" or "https" in lower
    case, a host and a path ending in "/"; None for any other root.
   */
  function SplitRoot(root: string): (b: Option<Base>)
    ensures b.Some? ==> root == Origin(b.value) + b.value.path
    ensures b.Some? ==> b.value.netloc != [] && '/' !in b.value.netloc
    ensures b.Some? ==> b.value.path != [] && b.value.path[0] == '/' && EndsWithSlash(b.value.path)
  {
    if |root| >= 7 && root[..7] == "http://" then SchemeHost("http", root, 7)
    else if |root| >= 8 && root[..8] == "https://" then SchemeHost("https", root, 8)
    else None
  }

  /** The root split after its first `n` characters, "scheme://". */
  function SchemeHost(scheme: string, root: string, n: nat): (b: Option<Base>)
    requires n == |scheme| + 3 <= |root| && root[..n] == scheme + "://"
    ensures b.Some? ==> root == Origin(b.value) + b.value.path
    ensures b.Some? ==> b.value.netloc != [] && '/' !in b.value.netloc
    ensures b.Some? ==> b.value.path != [] && b.value.path[0] == '/' && EndsWithSlash(b.value.path)
  {
    var r := SplitHost(scheme, root[n..]);
    if r.Some? then
      assert root == root[..n] + root[n..];
      OriginThenPath(scheme, root[n..], r.value);
      r
    else None
  }

  lemma OriginThenPath(scheme: string, rest: string, b: Base)
    requires b.scheme == scheme && rest == b.netloc + b.path
    ensures scheme + "://" + rest == Origin(b) + b.path
  {
  }

  /** `filter(None, parts)`: the non-empty parts, in order. */
  function NonEmpty(parts: seq<string>): (r: seq<string>)
    ensures forall i :: 0 <= i < |r| ==> r[i] != []
  {
    if parts == [] then []
    else
      var init := NonEmpty(parts[..|parts| - 1]);
      var last := parts[|parts| - 1];
      if last == [] then init else init + [last]
  }

  /**
    The segments `urljoin` resolves: an absolute path alone; otherwise the
    base path's parts (its last part dropped unless empty) followed by the
    reference's, with the empty parts strictly inside removed.
   */
  function MergeSegments(bpath: string, path: string): (segments: seq<string>)
    ensures |segments| >= 1
  {
    if path != [] && path[0] == '/' then Split(path, '/')
    else
      var b := Split(bpath, '/');
      var baseParts := if b[|b| - 1] != [] then b[..|b| - 1] else b;
      FilterInterior(baseParts + Split(path, '/'))
  }

  /** `segments[1:-1] = filter(None, segments[1:-1])`. */
  function FilterInterior(s: seq<string>): (r: seq<string>)
    ensures |r| >= 1 <== |s| >= 1
  {
    if |s| < 2 then s else [s[0]] + NonEmpty(s[1..|s| - 1]) + [s[|s| - 1]]
  }

  /** One turn of the loop over the segments: ".." drops the last kept segment if any, "." is skipped. */
  function DotStep(kept: seq<string>, seg: string): seq<string> {
    if seg == ".." then (if kept == [] then [] else kept[..|kept| - 1])
    else if seg == "." then kept
    else kept + [seg]
  }

  /** The loop over the segments, from the first to the last. */
  function RemoveDots(segments: seq<string>): seq<string> {
    if segments == [] then []
    else DotStep(RemoveDots(segments[..|segments| - 1]), segments[|segments| - 1])
  }

  /** The kept segments; a trailing "." or ".." leaves a trailing empty segment, that is a trailing "/". */
  function Resolved(segments: seq<string>): seq<string>
    requires |segments| >= 1
  {
    var last := segments[|segments| - 1];
    RemoveDots(segments) + (if last == "." || last == ".." then [[]] else [])
  }

  /** `"/".join(resolved) or "/"`. */
  function JoinOrRoot(resolved: seq<string>): (p: string)
    ensures p != []
  {
    var joined := if resolved == [] then "" else Join(resolved, '/');
    if joined == "" then "/" else joined
  }

  /** The path `urljoin` resolves. */
  function ResolvePath(bpath: string, path: string): (p: string)
    ensures p != []
  {
    JoinOrRoot(Resolved(MergeSegments(bpath, path)))
  }

  /** Without dot segments, every segment is kept as it is. */
  lemma ResolvedNoDots(segments: seq<string>)
    requires |segments| >= 1 && NoDots(segments)
    ensures Resolved(segments) == segments
  {
    RemoveDotsNone(segments);
  }

  /** `urlunsplit` with a network location puts a "/" before a path that lacks one. */
  function Rooted(p: string): (r: string)
    ensures r != [] && r[0] == '/'
  {
    if p != [] && p[0] == '/' then p else "/" + p
  }

  /** The text starts with "//", which `urlsplit` reads as a network location. */
  predicate TwoSlashes(s: string) {
    |s| >= 2 && s[0] == '/' && s[1] == '/'
  }

  /** A text that starts with "/" after a prefix starts with the prefix and "/". */
  lemma PrefixSlash(o: string, p: string)
    requires p != [] && p[0] == '/'
    ensures StartsWith(o + p, o + "/")
  {
    assert (o + p)[..|o| + 1] == o + [p[0]];
  }

  /** Path characters, without ":". */
  predicate PathChars(s: string) {
    forall k :: 0 <= k < |s| ==> UrlChar(s[k]) && s[k] != ':'
  }

  /** A method without a leading "/" or dot segments, made of path characters. */
  predicate RelativeMethod(m: string) {
    m != [] && m[0] != '/' && NoDots(Split(m, '/')) && PathChars(m)
  }

  /**
    A reference that `urlsplit` reads as a path alone under the root's
    scheme: no ":" (which could start a scheme), no leading "//" (a
    network location), no parameters in its last segment.
   */
  predicate PathReference(path: string) {
    && PathChars(path)
    && !TwoSlashes(path)
    && (EndsWithSlash(path) || ';' !in path)
  }

  /**
    `urljoin(root, path)`: an empty path gives the root; a path reference
    is resolved against the root's path. None marks what this model does
    not follow (see `SplitRoot` and `PathReference`).
   */
  function UrlJoin(root: string, path: string): (r: Option<string>)
    ensures r.Some? ==> SplitRoot(root).Some? && StartsWith(r.value, Origin(SplitRoot(root).value) + "/")
  {
    match SplitRoot(root)
    case None => None
    case Some(b) =>
      if path == [] then
        PrefixSlash(Origin(b), b.path);
        Some(root)
      else if !PathReference(path) then None
      else
        var p := Rooted(ResolvePath(b.path, path));
        PrefixSlash(Origin(b), p);
        Some(Origin(b) + p)
  }

  /** `_api_url`: the method path as written, resolved against the root. */
  function ApiUrl(c: Client, apiMethod: string): (r: Option<string>)
    ensures r.Some? ==> SplitRoot(c.apiRoot).Some? && StartsWith(r.value, Origin(SplitRoot(c.apiRoot).value) + "/")
  {
    UrlJoin(c.apiRoot, ApiPathAsWritten(apiMethod))
  }

  // ---------------------------------------------------------------------------
  // What the resolution gives.

  /** Segments that are all non-empty and none of them "." or "..". */
  predicate PlainSegments(parts: seq<string>) {
    forall i :: 0 <= i < |parts| ==> parts[i] != [] && parts[i] != "." && parts[i] != ".."
  }

  /** The same, for every segment but the first and the last. */
  predicate PlainInterior(parts: seq<string>) {
    forall i :: 0 < i < |parts| - 1 ==> parts[i] != [] && parts[i] != "." && parts[i] != ".."
  }

  predicate NoDots(parts: seq<string>) {
    forall i :: 0 <= i < |parts| ==> parts[i] != "." && parts[i] != ".."
  }

  /** Each part followed by "/". */
  function Dirs(parts: seq<string>): string {
    if parts == [] then "" else Dirs(parts[..|parts| - 1]) + parts[|parts| - 1] + "/"
  }

  lemma {:induction false} RemoveDotsNone(segments: seq<string>)
    requires NoDots(segments)
    ensures RemoveDots(segments) == segments
  {
    if segments != [] {
      var n := |segments| - 1;
      RemoveDotsNone(segments[..n]);
      assert segments[..n] + [segments[n]] == segments;
    }
  }

  lemma {:induction false} NonEmptyConcat(a: seq<string>, b: seq<string>)
    ensures NonEmpty(a + b) == NonEmpty(a) + NonEmpty(b)
  {
    if b != [] {
      var n := |b| - 1;
      NonEmptyConcat(a, b[..n]);
      assert (a + b)[..|a + b| - 1] == a + b[..n];
    } else {
      assert a + b == a;
    }
  }

  /** Every part kept is one of the parts. */
  lemma {:induction false} NonEmptyFrom(parts: seq<string>)
    ensures forall i :: 0 <= i < |NonEmpty(parts)| ==> NonEmpty(parts)[i] in parts
  {
    if parts != [] {
      var n := |parts| - 1;
      NonEmptyFrom(parts[..n]);
      assert forall x :: x in parts[..n] ==> x in parts;
    }
  }

  lemma NonEmptyOfEmpty()
    ensures NonEmpty([[]]) == []
  {
    var e: seq<string> := [[]];
    assert e[..0] == [];
  }

  lemma {:induction false} NonEmptyAll(parts: seq<string>)
    requires forall i :: 0 <= i < |parts| ==> parts[i] != []
    ensures NonEmpty(parts) == parts
  {
    if parts != [] {
      var n := |parts| - 1;
      NonEmptyAll(parts[..n]);
      assert parts[..n] + [parts[n]] == parts;
    }
  }

  lemma {:induction false} DirsConcat(a: seq<string>, b: seq<string>)
    ensures Dirs(a + b) == Dirs(a) + Dirs(b)
  {
    if b != [] {
      var n := |b| - 1;
      DirsConcat(a, b[..n]);
      assert (a + b)[..|a + b| - 1] == a + b[..n];
    } else {
      assert a + b == a;
    }
  }

  /** Joining parts with "/" and adding one "/" is putting a "/" after each. */
  lemma {:induction false} DirsJoin(parts: seq<string>)
    requires |parts| >= 1
    ensures Dirs(parts) == Join(parts, '/') + "/"
  {
    var n := |parts| - 1;
    if n > 0 {
      DirsJoin(parts[..n]);
    }
    assert parts[..n][..0] == [];
  }

  lemma DirsOfEmpty()
    ensures Dirs([[]]) == "/"
  {
    var e: seq<string> := [[]];
    assert e[..0] == [];
  }

  /** A path between two empty parts: a leading "/", then each part followed by "/". */
  lemma JoinBetweenEmpty(parts: seq<string>)
    ensures Join([[]] + parts + [[]], '/') == "/" + Dirs(parts)
  {
    var x := [[]] + parts + [[]];
    DirsJoin(x);
    assert x[..|x| - 1] == [[]] + parts;
    assert Dirs(x) == Dirs([[]] + parts) + "/";
    DirsConcat([[]], parts);
    DirsOfEmpty();
    var j := Join(x, '/');
    assert j + "/" == ("/" + Dirs(parts)) + "/";
    assert j == (j + "/")[..|j|];
    assert "/" + Dirs(parts) == (("/" + Dirs(parts)) + "/")[..|j|];
  }

  /** A text that starts (ends) with the separator splits with an empty first (last) part. */
  lemma SplitEnds(s: string, sep: char)
    ensures s != [] && s[0] == sep ==> Split(s, sep) == [[]] + Split(s[1..], sep)
    ensures s != [] && s[|s| - 1] == sep ==> Split(s, sep) == Split(s[..|s| - 1], sep) + [[]]
  {
    if s != [] && s[0] == sep {
      SplitConcat([], s[1..], sep);
      assert [] + [sep] + s[1..] == s;
      assert Split([], sep) == [[]];
    }
    if s != [] && s[|s| - 1] == sep {
      SplitSnoc(s[..|s| - 1], sep, sep);
      assert s[..|s| - 1] + [sep] == s;
    }
  }

  /** A character absent from a text is absent from every part of its split. */
  lemma {:induction false} SplitPartsLack(s: string, sep: char, c: char)
    requires c !in s
    ensures forall i :: 0 <= i < |Split(s, sep)| ==> c !in Split(s, sep)[i]
  {
    if s != [] {
      var n := |s| - 1;
      SplitPartsLack(s[..n], sep, c);
      SplitSnoc(s[..n], s[n], sep);
      assert s[..n] + [s[n]] == s;
    }
  }

  /** A path reference resolves against the root's path as `ResolvePath` says. */
  lemma UrlJoinPath(root: string, path: string)
    requires SplitRoot(root).Some? && path != [] && PathReference(path)
    ensures UrlJoin(root, path) == Some(Origin(SplitRoot(root).value) + Rooted(ResolvePath(SplitRoot(root).value.path, path)))
  {
  }

  /**
    A relative reference ending in "/" under a base path that starts and
    ends with "/": an empty segment, the non-empty parts of both, and an
    empty segment.
   */
  lemma MergeRelative(bpath: string, path: string)
    requires bpath != [] && bpath[0] == '/' && EndsWithSlash(bpath)
    requires path != [] && path[0] != '/' && EndsWithSlash(path)
    ensures MergeSegments(bpath, path) == [[]] + NonEmpty(Split(bpath, '/') + Split(path, '/')) + [[]]
  {
    var bs, ps := Split(bpath, '/'), Split(path, '/');
    SplitEnds(bpath, '/');
    SplitEnds(path, '/');
    assert bs[|bs| - 1] == [];
    assert MergeSegments(bpath, path) == FilterInterior(bs + ps);
    FilterBetweenEmpty(bs + ps);
  }

  /** Parts that start and end with an empty one keep those two and the non-empty ones. */
  lemma FilterBetweenEmpty(s: seq<string>)
    requires |s| >= 2 && s[0] == [] && s[|s| - 1] == []
    ensures FilterInterior(s) == [[]] + NonEmpty(s) + [[]]
  {
    var inner := s[1..|s| - 1];
    assert s == [[]] + inner + [[]];
    NonEmptyFramed(inner);
  }

  /**
    Without dot segments, a relative reference ending in "/" resolves to a
    "/" followed by every non-empty part of the base path and then of the
    reference, each followed by "/".
   */
  lemma ResolveRelative(bpath: string, path: string)
    requires bpath != [] && bpath[0] == '/' && EndsWithSlash(bpath)
    requires path != [] && path[0] != '/' && EndsWithSlash(path)
    requires NoDots(Split(bpath, '/')) && NoDots(Split(path, '/'))
    ensures ResolvePath(bpath, path) == "/" + Dirs(NonEmpty(Split(bpath, '/'))) + Dirs(NonEmpty(Split(path, '/')))
  {
    var bs, ps := Split(bpath, '/'), Split(path, '/');
    MergeRelative(bpath, path);
    var kept := NonEmpty(bs + ps);
    var segs := [[]] + kept + [[]];
    assert NoDots(segs) by {
      NonEmptyFrom(bs + ps);
      forall i | 0 <= i < |kept| ensures kept[i] != "." && kept[i] != ".." {
        assert kept[i] in bs + ps;
      }
    }
    ResolvedNoDots(segs);
    assert ResolvePath(bpath, path) == JoinOrRoot(segs);
    JoinBetweenEmpty(kept);
    assert JoinOrRoot(segs) == "/" + Dirs(kept);
    NonEmptyConcat(bs, ps);
    DirsConcat(NonEmpty(bs), NonEmpty(ps));
    ConcatAssoc("/", Dirs(NonEmpty(bs)), Dirs(NonEmpty(ps)));
  }

  lemma ConcatAssoc(a: string, x: string, y: string)
    ensures a + (x + y) == a + x + y
  {
  }

  /**
    For an http(s) root and a method that is a relative path without dot
    segments, the URL is the root's scheme and host, a "/", and then every
    non-empty segment of the root's path and of the method, each followed by
    "/": empty segments, from a doubled "/", are dropped.
   */
  lemma ApiUrlSegments(c: Client, apiMethod: string)
    requires SplitRoot(c.apiRoot).Some? && NoDots(Split(SplitRoot(c.apiRoot).value.path, '/'))
    requires RelativeMethod(StripLeadingSlash(apiMethod))
    ensures var b := SplitRoot(c.apiRoot).value;
      ApiUrl(c, apiMethod) ==
        Some(Origin(b) + "/" + Dirs(NonEmpty(Split(b.path, '/'))) + Dirs(NonEmpty(Split(StripLeadingSlash(apiMethod), '/'))))
  {
    AsWrittenRelative(apiMethod);
    UrlOfSlashed(c.apiRoot, StripLeadingSlash(apiMethod));
  }

  /** For a relative method the as-written path string is the method and one "/". */
  lemma AsWrittenRelative(apiMethod: string)
    requires var m := StripLeadingSlash(apiMethod); m != [] && m[0] != '/'
    ensures ApiPathAsWritten(apiMethod) == StripLeadingSlash(apiMethod) + "/"
  {
    var m := StripLeadingSlash(apiMethod);
    if |m| >= 2 {
      assert DropLast(m)[0] == m[0];
    }
  }

  /** `ApiUrlSegments` for the path string of a relative method: the method and its "/". */
  lemma UrlOfSlashed(root: string, m: string)
    requires SplitRoot(root).Some? && NoDots(Split(SplitRoot(root).value.path, '/'))
    requires RelativeMethod(m)
    ensures var b := SplitRoot(root).value;
      UrlJoin(root, m + "/") == Some(Origin(b) + "/" + Dirs(NonEmpty(Split(b.path, '/'))) + Dirs(NonEmpty(Split(m, '/'))))
  {
    var b := SplitRoot(root).value;
    var path := m + "/";
    SlashedMethod(m);
    UrlJoinPath(root, path);
    ResolveRelative(b.path, path);
    var x, y := Dirs(NonEmpty(Split(b.path, '/'))), Dirs(NonEmpty(Split(m, '/')));
    assert ResolvePath(b.path, path) == "/" + x + y;
    assert Rooted("/" + x + y) == "/" + x + y;
    ConcatAssoc3(Origin(b), "/", x, y);
  }

  /** A relative method with its "/" added: a relative path reference with the same non-empty segments. */
  lemma SlashedMethod(m: string)
    requires RelativeMethod(m)
    ensures var path := m + "/";
      && path[0] != '/' && EndsWithSlash(path) && PathReference(path)
      && NoDots(Split(path, '/')) && NonEmpty(Split(path, '/')) == NonEmpty(Split(m, '/'))
  {
    var path := m + "/";
    assert path[0] == m[0];
    forall k | 0 <= k < |path| ensures UrlChar(path[k]) && path[k] != ':' {
      if k < |m| { assert path[k] == m[k]; }
    }
    SplitWithSlash(m);
    var ms := Split(m, '/');
    assert forall i :: 0 <= i < |ms + [[]]| ==> (ms + [[]])[i] == if i < |ms| then ms[i] else [];
    NonEmptyConcat(ms, [[]]);
    NonEmptyOfEmpty();
  }

  /** A "/" added to a text adds an empty last part to its split. */
  lemma SplitWithSlash(m: string)
    ensures Split(m + "/", '/') == Split(m, '/') + [[]]
  {
    SplitSnoc(m, '/', '/');
    assert m + "/" == m + ['/'];
  }

  lemma ConcatAssoc3(o: string, a: string, x: string, y: string)
    ensures o + (a + x + y) == o + a + x + y
  {
  }

  /**
    For an http(s) root whose path has no empty or dot segment, and a
    method whose segments are all non-empty and not dots, the URL is the
    root, the method and one "/", with or without a leading "/" on the method.
   */
  lemma ApiUrlPlain(c: Client, apiMethod: string)
    requires SplitRoot(c.apiRoot).Some?
    requires PlainInterior(Split(SplitRoot(c.apiRoot).value.path, '/'))
    requires PlainSegments(Split(apiMethod, '/'))
    requires PathChars(apiMethod)
    ensures ApiUrl(c, apiMethod) == Some(c.apiRoot + apiMethod + "/")
    ensures ApiUrl(c, "/" + apiMethod) == ApiUrl(c, apiMethod)
  {
    var b := SplitRoot(c.apiRoot).value;
    PlainRootPath(b.path);
    PlainMethod(apiMethod);
    var x := Dirs(NonEmpty(Split(b.path, '/')));
    ApiUrlSegments(c, apiMethod);
    assert ApiUrl(c, apiMethod) == Some(Origin(b) + "/" + x + (apiMethod + "/"));
    ConcatAssoc(Origin(b), "/", x);
    assert Origin(b) + "/" + x == c.apiRoot;
    ConcatAssoc(c.apiRoot, apiMethod, "/");
    ApiUrlSegments(c, "/" + apiMethod);
  }

  /** A root path without empty or dot segments inside is a "/" and its segments, each followed by "/". */
  lemma PlainRootPath(bpath: string)
    requires bpath != [] && bpath[0] == '/' && EndsWithSlash(bpath)
    requires PlainInterior(Split(bpath, '/'))
    ensures NoDots(Split(bpath, '/'))
    ensures "/" + Dirs(NonEmpty(Split(bpath, '/'))) == bpath
  {
    var bs := Split(bpath, '/');
    SplitEnds(bpath, '/');
    var inner := bs[1..|bs| - 1];
    assert bs == [[]] + inner + [[]];
    assert forall i :: 0 <= i < |inner| ==> inner[i] == bs[i + 1];
    NonEmptyFramed(inner);
    NonEmptyAll(inner);
    assert NonEmpty(bs) == inner;
    JoinSplit(bpath, '/');
    JoinBetweenEmpty(inner);
    assert Join(bs, '/') == "/" + Dirs(inner);
    forall i | 0 <= i < |bs| ensures bs[i] != "." && bs[i] != ".." {
      if 0 < i < |bs| - 1 {
        assert bs[i] == inner[i - 1];
      }
    }
  }

  lemma NonEmptyFramed(inner: seq<string>)
    ensures NonEmpty([[]] + inner + [[]]) == NonEmpty(inner)
  {
    NonEmptyConcat([[]] + inner, [[]]);
    NonEmptyConcat([[]], inner);
    NonEmptyOfEmpty();
  }

  /** A method whose segments are all non-empty and not dots: its segments, each followed by "/", are the method and one "/". */
  lemma PlainMethod(m: string)
    requires PlainSegments(Split(m, '/'))
    ensures m != [] && m[0] != '/' && NoDots(Split(m, '/'))
    ensures PathChars(m) ==> RelativeMethod(m)
    ensures StripLeadingSlash(m) == m && StripLeadingSlash("/" + m) == m
    ensures Dirs(NonEmpty(Split(m, '/'))) == m + "/"
  {
    var ms := Split(m, '/');
    SplitEnds(m, '/');
    assert ms[0] != [];
    assert ("/" + m)[1..] == m;
    assert forall i :: 0 <= i < |ms| ==> ms[i] != [];
    NonEmptyAll(ms);
    assert NonEmpty(ms) == ms;
    DirsJoin(ms);
    JoinSplit(m, '/');
    assert Join(ms, '/') == m;
  }

  /** `urljoin` drops the empty segment of a doubled "/" in the method: "a//b" is requested as "a/b". */
  lemma EmptySegmentDropped(c: Client, a: string, b: string)
    requires SplitRoot(c.apiRoot).Some? && NoDots(Split(SplitRoot(c.apiRoot).value.path, '/'))
    requires a != [] && a[0] != '/' && NoDots(Split(a, '/')) && NoDots(Split(b, '/'))
    requires PathChars(a)
    requires PathChars(b)
    ensures ApiUrl(c, a + "//" + b) == ApiUrl(c, a + "/" + b)
  {
    MethodsAround(a, b);
    ApiUrlSegments(c, a + "/" + b);
    ApiUrlSegments(c, a + "//" + b);
  }

  /** "a/b" and "a//b" are methods `ApiUrlSegments` covers, with the same non-empty segments. */
  lemma MethodsAround(a: string, b: string)
    requires a != [] && a[0] != '/' && NoDots(Split(a, '/')) && NoDots(Split(b, '/'))
    requires PathChars(a)
    requires PathChars(b)
    ensures StripLeadingSlash(a + "/" + b) == a + "/" + b && RelativeMethod(a + "/" + b)
    ensures StripLeadingSlash(a + "//" + b) == a + "//" + b && RelativeMethod(a + "//" + b)
    ensures NonEmpty(Split(a + "//" + b, '/')) == NonEmpty(Split(a + "/" + b, '/'))
  {
    var single, double := a + "/" + b, a + "//" + b;
    MethodAround(a, b, single, "/");
    MethodAround(a, b, double, "//");
    SplitAround(a, b);
    var sa, sb := Split(a, '/'), Split(b, '/');
    NoDotsConcat(sa, sb);
    NonEmptyConcat(sa + [[]], sb);
    NonEmptyConcat(sa, [[]]);
    NonEmptyConcat(sa, sb);
    NonEmptyOfEmpty();
  }

  /** `a`, then one or two "/", then `b`: a method that does not start with "/", of path characters. */
  lemma MethodAround(a: string, b: string, m: string, slashes: string)
    requires a != [] && a[0] != '/'
    requires PathChars(a)
    requires PathChars(b)
    requires (slashes == "/" || slashes == "//") && m == a + slashes + b
    ensures StripLeadingSlash(m) == m && m != [] && m[0] != '/'
    ensures PathChars(m)
  {
    assert m[0] == a[0];
    forall k | 0 <= k < |m| ensures UrlChar(m[k]) && m[k] != ':' {
      if k < |a| {
        assert m[k] == a[k];
      } else if k < |a| + |slashes| {
        assert m[k] == slashes[k - |a|];
      } else {
        assert m[k] == b[k - |a| - |slashes|];
      }
    }
  }

  /** The parts of "a/b" and of "a//b". */
  lemma SplitAround(a: string, b: string)
    ensures Split(a + "/" + b, '/') == Split(a, '/') + Split(b, '/')
    ensures Split(a + "//" + b, '/') == Split(a, '/') + [[]] + Split(b, '/')
  {
    SplitConcat(a, b, '/');
    assert a + "/" + b == a + ['/'] + b;
    SplitDoubled(a, b);
  }

  lemma SplitDoubled(a: string, b: string)
    ensures Split(a + "//" + b, '/') == Split(a, '/') + [[]] + Split(b, '/')
  {
    var a' := a + "/";
    SplitConcat(a', b, '/');
    assert a + "//" + b == a' + ['/'] + b;
    SplitWithSlash(a);
    assert Split(a', '/') == Split(a, '/') + [[]];
  }

  lemma NoDotsConcat(p: seq<string>, q: seq<string>)
    requires NoDots(p) && NoDots(q)
    ensures NoDots(p + q) && NoDots(p + [[]] + q)
  {
    assert forall i :: 0 <= i < |p + q| ==> (p + q)[i] == if i < |p| then p[i] else q[i - |p|];
    var r := p + [[]] + q;
    assert forall i :: 0 <= i < |r| ==> r[i] == if i < |p| then p[i] else if i == |p| then [] else q[i - |p| - 1];
  }

  /**
    The trailing "/" the as-written test leaves doubled on a method that
    already ends in "/" is dropped by `urljoin`, as is any difference the
    corrected path string makes: for every root and every method that does
    not start with "//", the URL is the one built from `ApiPath`.
   */
  lemma ApiUrlAgrees(c: Client, apiMethod: string)
    requires !TwoSlashes(apiMethod)
    ensures ApiUrl(c, apiMethod) == UrlJoin(c.apiRoot, ApiPath(apiMethod))
  {
    var m := StripLeadingSlash(apiMethod);
    assert m == [] || m[0] != '/';
    assert DropLast(m) != "/" by {
      if |m| >= 2 {
        assert DropLast(m)[0] == m[0];
      }
    }
    if m != [] && EndsWithSlash(m) {
      assert ApiPathAsWritten(apiMethod) == m + "/" && ApiPath(apiMethod) == m;
      if SplitRoot(c.apiRoot).Some? {
        var bpath := SplitRoot(c.apiRoot).value.path;
        PathReferenceSlash(m);
        MergeSlash(bpath, m);
        assert ResolvePath(bpath, m + "/") == ResolvePath(bpath, m);
      }
    } else {
      assert ApiPathAsWritten(apiMethod) == ApiPath(apiMethod);
    }
  }

  /** A second trailing "/" does not change whether a relative path is a path reference. */
  lemma PathReferenceSlash(m: string)
    requires m != [] && m[0] != '/' && EndsWithSlash(m)
    ensures PathReference(m + "/") == PathReference(m)
  {
    var path := m + "/";
    assert path[0] == m[0];
    assert forall k :: 0 <= k < |m| ==> path[k] == m[k];
  }

  /** A second trailing "/" on a relative path only adds an empty segment, which the filter drops. */
  lemma MergeSlash(bpath: string, m: string)
    requires m != [] && m[0] != '/' && EndsWithSlash(m)
    ensures MergeSegments(bpath, m + "/") == MergeSegments(bpath, m)
  {
    var path := m + "/";
    assert path[0] == m[0];
    SplitWithSlash(m);
    SplitEnds(m, '/');
    var bs := Split(bpath, '/');
    var baseParts := if bs[|bs| - 1] != [] then bs[..|bs| - 1] else bs;
    var s := baseParts + Split(m, '/');
    assert baseParts + Split(path, '/') == s + [[]];
    FilterAppendEmpty(s);
  }

  /** An empty part after an empty last part is dropped by the filter. */
  lemma FilterAppendEmpty(s: seq<string>)
    requires |s| >= 2 && s[|s| - 1] == []
    ensures FilterInterior(s + [[]]) == FilterInterior(s)
  {
    var t := s + [[]];
    var inner := s[1..|s| - 1];
    assert t[1..|t| - 1] == inner + [[]];
    NonEmptyConcat(inner, [[]]);
    NonEmptyOfEmpty();
  }

  /**
    As written, the path string of a method that already ends in "/" gets a
    second one, but the URL requested is the same as without it.
   */
  lemma DoubledSlash(c: Client)
    ensures ApiPathAsWritten("status/") == "status//"
    ensures ApiUrl(c, "status/") == ApiUrl(c, "status")
  {
    assert DropLast("status/") == "status";
    ApiUrlAgrees(c, "status/");
    ApiUrlAgrees(c, "status");
    assert ApiPath("status/") == "status/" == ApiPath("status");
  }

  /** A path reference that starts with a single "/" and has no dot segment replaces the root's path. */
  lemma AbsolutePathKept(root: string, path: string)
    requires SplitRoot(root).Some?
    requires path != [] && path[0] == '/' && PathReference(path) && NoDots(Split(path, '/'))
    ensures UrlJoin(root, path) == Some(Origin(SplitRoot(root).value) + path)
  {
    var b := SplitRoot(root).value;
    var segs := MergeSegments(b.path, path);
    assert segs == Split(path, '/');
    ResolvedNoDots(segs);
    JoinSplit(path, '/');
    assert JoinOrRoot(segs) == path;
  }

  /**
    The one place the as-written test shows in the URL: a method that starts
    with "//" and ends with "/" keeps a doubled "/" at its end, since an
    absolute path is not filtered; the corrected path string gives one.
   */
  lemma LeadingDoubleSlashKept(c: Client, x: string)
    requires SplitRoot(c.apiRoot).Some?
    requires x != [] && '/' !in x && '.' !in x && PathChars(x)
    ensures ApiUrl(c, "//" + x + "/") == Some(Origin(SplitRoot(c.apiRoot).value) + "/" + x + "//")
    ensures UrlJoin(c.apiRoot, ApiPath("//" + x + "/")) == Some(Origin(SplitRoot(c.apiRoot).value) + "/" + x + "/")
  {
    var o := Origin(SplitRoot(c.apiRoot).value);
    var m := "/" + x + "/";
    DoubleSlashPaths(x);
    AbsoluteOfName(x, m);
    AbsoluteOfName(x, m + "/");
    AbsolutePathKept(c.apiRoot, m + "/");
    AbsolutePathKept(c.apiRoot, m);
    assert ApiUrl(c, "//" + x + "/") == Some(o + (m + "/"));
    assert UrlJoin(c.apiRoot, ApiPath("//" + x + "/")) == Some(o + m);
    NameBetweenSlashes(o, x);
  }

  lemma NameBetweenSlashes(o: string, x: string)
    ensures o + ("/" + x + "/" + "/") == o + "/" + x + "//"
    ensures o + ("/" + x + "/") == o + "/" + x + "/"
  {
  }

  /** Both path strings of "//x/": the as-written one doubles the last "/". */
  lemma DoubleSlashPaths(x: string)
    requires x != [] && x[0] != '/'
    ensures ApiPathAsWritten("//" + x + "/") == "/" + x + "/" + "/"
    ensures ApiPath("//" + x + "/") == "/" + x + "/"
  {
    var m := "/" + x + "/";
    assert StripLeadingSlash("//" + x + "/") == m;
    assert DropLast(m) == "/" + x;
  }

  /** "/x/" or "/x//", for a name `x` without "/", ".", ":" or an excluded character, is an absolute path reference without dot segments. */
  lemma AbsoluteOfName(x: string, p: string)
    requires x != [] && '/' !in x && '.' !in x && PathChars(x)
    requires p == "/" + x + "/" || p == "/" + x + "/" + "/"
    ensures p != [] && p[0] == '/' && PathReference(p) && NoDots(Split(p, '/'))
  {
    assert p[1] == x[0];
    assert forall k :: 1 <= k <= |x| ==> p[k] == x[k - 1];
    assert forall k :: |x| < k < |p| ==> p[k] == '/';
    assert '.' !in p;
    SplitPartsLack(p, '/', '.');
  }

  /** A failed call; `message` is the decoded body, None when the body was not JSON. */
  datatype ClientError<J> =
    | DecodeError
    | ApiError(httpMethod: string, apiMethod: string, httpStatus: int, message: Option<J>)

  /** `_process_response`: the decoded body on 200, ApiError with the request and the status otherwise. */
  function ProcessResponse<J>(httpMethod: string, apiMethod: string, status: int, body: Option<J>): (r: Result<J, ClientError<J>>)
    ensures r.Ok? <==> status == 200 && body.Some?
    ensures r.Ok? ==> r.value == body.value
    ensures status == 200 && body.None? ==> r == Err(DecodeError)
    ensures status != 200 ==> r.Err? && r.error.ApiError? && r.error.httpStatus == status &&
                              r.error.httpMethod == httpMethod && r.error.apiMethod == apiMethod &&
                              r.error.message == body
  {
    if status == 200 then
      if body.Some? then Ok(body.value) else Err(DecodeError)
    else
      Err(ApiError(httpMethod, apiMethod, status, body))
  }

  /** The text before the status in an ApiError message. */
  function StatusPrefix(httpMethod: string, apiMethod: string): string {
    "API Method " + httpMethod + " " + apiMethod + " failed with status "
  }

  /**
    The ApiError message; `show` is Python's `str` of the decoded body, and
    a body that was not JSON shows as the empty string.
   */
  function ErrorMessage<J>(e: ClientError<J>, show: J -> string): (m: string)
    requires e.ApiError?
    ensures StatusPrefix(e.httpMethod, e.apiMethod) <= m
  {
    var text := if e.message.Some? then show(e.message.value) else "";
    StatusPrefix(e.httpMethod, e.apiMethod) + IntToString(e.httpStatus) + ": " + text
  }

  /** The message tells the status apart: two errors that differ only in status have different messages. */
  lemma ErrorMessageStatus<J>(a: ClientError<J>, b: ClientError<J>, show: J -> string)
    requires a.ApiError? && b.ApiError?
    requires a.httpMethod == b.httpMethod && a.apiMethod == b.apiMethod && a.message == b.message
    requires ErrorMessage(a, show) == ErrorMessage(b, show)
    ensures a.httpStatus == b.httpStatus
  {
    var p := StatusPrefix(a.httpMethod, a.apiMethod);
    var text := if a.message.Some? then show(a.message.value) else "";
    var sa, sb := IntToString(a.httpStatus), IntToString(b.httpStatus);
    assert ErrorMessage(a, show) == p + sa + ": " + text;
    assert ErrorMessage(b, show) == p + sb + ": " + text;
    MiddleEqual(p, sa, sb, ": ", text);
    IntToStringInjective(a.httpStatus, b.httpStatus);
  }

  /** Equal strings with the same prefix and suffix have the same middle. */
  lemma MiddleEqual(p: string, x: string, y: string, c: string, t: string)
    requires p + x + c + t == p + y + c + t
    ensures x == y
  {
    assert |x| == |y|;
    assert x == (p + x + c + t)[|p|..|p| + |x|];
    assert y == (p + y + c + t)[|p|..|p| + |y|];
  }
}
