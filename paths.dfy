/**
 * The two path helpers of the core: the trailing-slash normalisation of the
 * listing URL's path (sanny.go, ParseDirectory) and the local file name of a
 * download (sanny.go, downloadFile), which uses Go's `filepath.Base` with the
 * Unix separator `/`.
 */
module Paths {
  import opened Strings
  import opened Classify

  // ---------------------------------------------------------------------------
  // Trailing-slash normalisation of the listing path
  // ---------------------------------------------------------------------------

  /** The listing path as it is fetched: it ends with `/`, and at most one `/` was added. */
  function WithTrailingSlash(path: string): (r: string)
    ensures HasSuffix(r, "/")
    ensures HasPrefix(r, path)
    ensures |r| == |path| || |r| == |path| + 1
    ensures r == path <==> HasSuffix(path, "/")
  {
    if HasSuffix(path, "/") then path else path + "/"
  }

  /** Normalising twice is normalising once. */
  lemma WithTrailingSlashIdempotent(path: string)
    ensures WithTrailingSlash(WithTrailingSlash(path)) == WithTrailingSlash(path)
  {
  }

  /** The parts of a parsed URL that the listing code touches; its path is updated in place. */
  class Url {
    var scheme: string
    var host: string
    var path: string
    var rawQuery: string

    constructor (scheme: string, host: string, path: string, rawQuery: string)
      ensures this.scheme == scheme && this.host == host && this.path == path && this.rawQuery == rawQuery
    {
      this.scheme := scheme;
      this.host := host;
      this.path := path;
      this.rawQuery := rawQuery;
    }

    /** Appends `/` to the path unless it already ends with one; nothing else changes. */
    method NormalizeListingPath()
      modifies this`path
      ensures path == WithTrailingSlash(old(path))
    {
      if !HasSuffix(path, "/") {
        path := path + "/";
      }
    }
  }

  // ---------------------------------------------------------------------------
  // filepath.Base and the local file name
  // ---------------------------------------------------------------------------

  /** `p` without its trailing run of `/`. */
  function TrimTrailingSlashes(p: string): (r: string)
    ensures |r| <= |p| && r == p[..|r|]
    ensures r == [] || r[|r| - 1] != '/'
    ensures forall i :: |r| <= i < |p| ==> p[i] == '/'
  {
    if p != [] && p[|p| - 1] == '/' then TrimTrailingSlashes(p[..|p| - 1]) else p
  }

  /** What follows the last `/` of `p` (all of `p` when it has none). */
  function AfterLastSlash(p: string): (r: string)
    ensures |r| <= |p| && r == p[|p| - |r|..]
    ensures forall i :: 0 <= i < |r| ==> r[i] != '/'
    ensures |r| < |p| ==> p[|p| - |r| - 1] == '/'
  {
    if p == [] || p[|p| - 1] == '/' then []
    else AfterLastSlash(p[..|p| - 1]) + [p[|p| - 1]]
  }

  /**
   * filepath.Base: "." for the empty path, "/" for a path made only of
   * slashes, otherwise the last element once trailing slashes are removed.
   */
  function Base(p: string): (r: string)
    ensures r != ""
    ensures r == "/" || forall i :: 0 <= i < |r| ==> r[i] != '/'
    ensures p == "" ==> r == "."
    ensures r == "/" <==> p != "" && forall i :: 0 <= i < |p| ==> p[i] == '/'
    ensures p != "" && r != "/" ==>
      var t := TrimTrailingSlashes(p);
      |r| <= |t| && t[|t| - |r|..] == r && (|r| == |t| || t[|t| - |r| - 1] == '/')
  {
    if p == "" then "."
    else
      var e := AfterLastSlash(TrimTrailingSlashes(p));
      if e == "" then "/" else e
  }

  lemma AfterLastSlashSnoc(q: string, c: char)
    requires c != '/'
    ensures AfterLastSlash(q + [c]) == AfterLastSlash(q) + [c]
  {
    assert (q + [c])[..|q|] == q;
  }

  /** After a `/` (or at the start), a slash-free tail is the last element. */
  lemma {:induction false} AfterLastSlashOfTail(dir: string, name: string)
    requires dir == [] || dir[|dir| - 1] == '/'
    requires forall i :: 0 <= i < |name| ==> name[i] != '/'
    ensures AfterLastSlash(dir + name) == name
    decreases |name|
  {
    if name == [] {
      assert dir + name == dir;
    } else {
      var init, c := name[..|name| - 1], name[|name| - 1];
      assert name == init + [c];
      assert dir + name == (dir + init) + [c];
      AfterLastSlashOfTail(dir, init);
      AfterLastSlashSnoc(dir + init, c);
    }
  }

  /** Trailing slashes after a path that does not end in `/` are all trimmed, and nothing more. */
  lemma {:induction false} TrimTrailingSlashesOfTail(q: string, trail: string)
    requires q != [] && q[|q| - 1] != '/'
    requires forall i :: 0 <= i < |trail| ==> trail[i] == '/'
    ensures TrimTrailingSlashes(q + trail) == q
    decreases |trail|
  {
    if trail == [] {
      assert q + trail == q;
    } else {
      var init := trail[..|trail| - 1];
      assert trail == init + ['/'];
      assert q + trail == (q + init) + ['/'];
      assert (q + trail)[..|q + trail| - 1] == q + init;
      TrimTrailingSlashesOfTail(q, init);
    }
  }

  /**
   * Base of a directory part, a non-empty slash-free element and any run of
   * trailing slashes is that element.
   */
  lemma BaseOfLastElement(dir: string, name: string, trail: string)
    requires dir == [] || dir[|dir| - 1] == '/'
    requires name != []
    requires forall i :: 0 <= i < |name| ==> name[i] != '/'
    requires forall i :: 0 <= i < |trail| ==> trail[i] == '/'
    ensures Base(dir + name + trail) == name
  {
    var q := dir + name;
    assert q[|q| - 1] == name[|name| - 1];
    TrimTrailingSlashesOfTail(q, trail);
    AfterLastSlashOfTail(dir, name);
  }

  /** The fallback name of a download whose URL has no usable last element. */
  const FallbackName := "downloaded_file"

  /** The local file name of a download: never "." nor "/", and Base's answer except for those two. */
  function LocalFileName(url: string): (r: string)
    ensures r != "" && r != "." && r != "/"
    ensures forall i :: 0 <= i < |r| ==> r[i] != '/'
    ensures Base(url) != "." && Base(url) != "/" ==> r == Base(url)
    ensures Base(url) == "." || Base(url) == "/" ==> r == FallbackName
  {
    var filename := Base(url);
    if filename == "." || filename == "/" then FallbackName else filename
  }

  /**
   * The fallback is used exactly for the empty URL, a URL made only of
   * slashes, and a URL whose last element is ".".
   */
  lemma FallbackCases(url: string)
    ensures LocalFileName(url) == FallbackName && Base(url) != FallbackName
        <==> url == "" || (forall i :: 0 <= i < |url| ==> url[i] == '/') || AfterLastSlash(TrimTrailingSlashes(url)) == "."
  {
  }

  /**
   * An accepted entry downloaded from a URL ending in `/` followed by that
   * entry is saved under the entry's own name.
   */
  lemma LocalFileNameOfEntry(prefix: string, entry: string)
    requires Accept(entry)
    ensures LocalFileName(entry) == entry
    ensures LocalFileName(prefix + "/" + entry) == entry
  {
    AcceptedHasNoSeparator(entry);
    assert entry != [];
    SlashFreeBase("", entry);
    assert "" + entry == entry;
    SlashFreeBase(prefix + "/", entry);
  }

  /** Base of a directory part followed by a slash-free element, with no trailing slash. */
  lemma SlashFreeBase(dir: string, name: string)
    requires dir == [] || dir[|dir| - 1] == '/'
    requires name != []
    requires forall i :: 0 <= i < |name| ==> name[i] != '/'
    ensures Base(dir + name) == name
  {
    BaseOfLastElement(dir, name, "");
    assert dir + name + "" == dir + name;
  }
}
