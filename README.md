# sanny: the directory-listing link collector

sanny downloads every file linked from a web server's directory-listing page.
This project models the part of `sanny.go` that decides which links are files:

- `parseHTML` walks the parsed HTML document depth-first. For every `<a>`
  element it reads each `href` attribute, one by one. A value is rejected if
  it is `"../"`, `""` or `"./"`. It is rejected if it starts with `http://`,
  `https://` or `//`, and if it ends with `/`. Otherwise it is kept only if it
  matches `^[\w\-\.]+\.[a-zA-Z0-9]{1,10}$`. Kept values are appended in
  document order, and duplicates stay.
- `ParseDirectory` appends `/` to the listing URL's path unless the path
  already ends with one.
- `downloadFile` names the local file after `filepath.Base` of the download
  URL. It uses `downloaded_file` when Base returns `.` or `/`.

Modules, one per concern:

- `Html` (html.dfy): the parsed tree. Each node has a kind, a `data` string, an
  attribute list of (namespace, key, value) triples and its children in sibling
  order. The children sequence stands for Go's `FirstChild`/`NextSibling` chain.
- `Strings` (strings.dfy): `strings.HasPrefix` and `strings.HasSuffix`.
- `FileName` (filename.dfy): the regular expression, written by hand over ASCII.
  RE2's `\w` is `[0-9A-Za-z_]`, and without the `m` flag `$` matches only at
  the end of the text. `FileNamePattern` is the grammar as a split into name,
  dot and extension. `LastDotForm` describes the same words through the last
  dot, and `PatternIffLastDot` proves the two agree.
- `Classify` (classify.dfy): the filter chain `Accept`, in the source's order.
  The lemmas prove that the grammar alone decides acceptance, because the
  earlier filters only reject strings the grammar rejects too.
- `Listing` (listing.dfy): the traversal. `Collector` is the recursive closure
  together with the slice it appends to. `Visit` is the closure and
  `VisitAttributes` is its loop over `n.Attr`. Both are proved against the
  pure function `Collect`. `Collect` is in turn proved equal to an independent
  reference: list the nodes in pre-order, take the `href` values of the anchors,
  and keep the accepted ones (`KeepAccepted(CandidatesOf(PreOrder(n)))`).
- `Paths` (paths.dfy): the trailing-slash normalisation. It is a method on a
  `Url` object, because the source updates `u.Path` in place. It is specified
  by the function `WithTrailingSlash`. The module also holds `filepath.Base`
  with the Unix separator and the local file-name derivation.
- `Scenarios` (scenarios.dfy): concrete listings. One is a parent link, a file,
  a sub-directory and an external link, of which only the file is kept. Another
  has nested anchors, several `href` attributes on one anchor, and an `href` on a
  `<link>` element.

Two details of the code shape the model:

- `downloadFile` takes `filepath.Base` of the full resolved URL string, not of
  the entry. `LocalFileNameOfEntry` shows that the two give the same name when
  an accepted entry is the last path element of the URL.
- Every attribute of an anchor whose key is `href` is read, so one anchor can
  contribute twice. The namespace of the attribute is not consulted.

## Model

| member | source | states |
|---|---|---|
| `FileName.PatternIffLastDot` | sanny.go:77-83 | The pattern's language equals the last-dot form. In that form every character is in `[A-Za-z0-9_.-]`, the last `.` has at least one character before it, and 1 to 10 ASCII alphanumerics follow it. |
| `FileName.PatternCharacters` | sanny.go:77-83 | A word of the grammar has at least three characters and contains neither `/` nor `:`. |
| `FileName.RejectsNonNameChar` | sanny.go:77-90 | A single character outside `[\w\-\.]` makes the match fail. |
| `FileName.RejectsByLastDot` | sanny.go:77-90 | The match fails when the last dot is the first character, or is followed by zero or more than ten characters. |
| `Classify.AcceptIsPattern` | sanny.go:60-90 | A candidate is accepted exactly when it matches the grammar. An accepted value is never `"../"`, `""` or `"./"`, never starts with `http://`, `https://` or `//`, and never ends with `/`. |
| `Classify.PatternPassesEarlyFilters` | sanny.go:62-76 | The three early filters never reject a string that matches the grammar, so they are implied by it. |
| `Classify.AcceptedHasNoSeparator` | sanny.go:62-86 | An accepted entry contains no `/` or `:`, so it names a file in the listing itself. |
| `Listing.KeepAccepted` | sanny.go:83-90 | The kept values are exactly the accepted elements of the input, and there are no more of them than inputs. |
| `Listing.KeepAcceptedCount` | sanny.go:83-90 | Each accepted value is kept as many times as it occurs, and a rejected value never appears. |
| `Listing.KeepAcceptedAppend` | sanny.go:56-101 | Filtering distributes over concatenation, so appending as you go equals filtering at the end. |
| `Listing.HrefValuesAppend` | sanny.go:58-59 | The `href` values of two attribute lists joined are the two lists' values joined. |
| `Listing.CandidatesOfAppend` | sanny.go:97-99 | The candidates of two node sequences joined are the candidates of each, in order. |
| `Listing.PreOrder` | sanny.go:97-99 | The pre-order listing of a tree is non-empty and starts with the root, so a node comes before its children. |
| `Listing.PreOrderForestSnoc` | sanny.go:97-99 | Visiting one more sibling appends that sibling's whole subtree, in pre-order. |
| `Listing.AcceptedHrefsIsFilter` | sanny.go:58-95 | The attribute loop's output is the accepted subsequence of the anchor's `href` values, in list order. |
| `Listing.AcceptedHrefsSnoc` | sanny.go:58-95 | Step lemma of the attribute loop (an unfolding of `AcceptedHrefs`): one more attribute adds its value exactly when its key is `href` and the value is accepted. |
| `Listing.CollectForestSnoc` | sanny.go:97-99 | Step lemma of the children loop (an unfolding of `CollectForest`): one more child adds exactly that child's entries, after those of the earlier children. |
| `Listing.CollectIsFilteredPreOrder` | sanny.go:56-101 | The traversal's result is the accepted `href` values of the anchors, node by node in pre-order and attribute by attribute, with each occurrence kept. |
| `Listing.CollectForestIsFilteredPreOrder` | sanny.go:97-99 | The same holds for a sequence of siblings visited one after another. |
| `Listing.CollectSound` | sanny.go:60-90 | Every collected entry matches the grammar and passed every early filter. |
| `Listing.CollectComplete` | sanny.go:57-99 | Every `href` of every anchor in the tree is collected when its value matches the grammar. This includes anchors below other anchors. |
| `Listing.CollectKeepsEveryOccurrence` | sanny.go:83-86 | Duplicates are not removed: an accepted value occurs in the result as often as it occurs among the candidates. |
| `Listing.NoAnchorsNoEntries` | sanny.go:48-103 | A tree without `<a>` elements yields the empty list. |
| `Listing.Collector.constructor` | sanny.go:48 | The collector starts with an empty list. |
| `Listing.Collector.VisitAttributes` | sanny.go:58-95 | The loop over an anchor's attributes appends exactly `AcceptedHrefs` of the list to the paths collected so far. |
| `Listing.Collector.Visit` | sanny.go:56-100 | Visiting a node appends exactly `Collect(n)`: the node's own entries if it is an anchor, then its children's in sibling order. |
| `Listing.ParseHTML` | sanny.go:47-104 | A parse error is passed on unchanged. Otherwise the result is `Ok` of the filtered pre-order candidates of the document, which is empty when nothing qualifies. |
| `Paths.WithTrailingSlash` | sanny.go:27-29 | The result ends with `/` and starts with the input. It is at most one character longer, and equals the input exactly when the input already ends with `/`. |
| `Paths.WithTrailingSlashIdempotent` | sanny.go:27-29 | Normalising twice equals normalising once. |
| `Paths.Url.NormalizeListingPath` | sanny.go:27-29 | The path becomes `WithTrailingSlash` of the old path, and no other field changes. |
| `Paths.TrimTrailingSlashes` | sanny.go:117 | The result is a prefix of the input that does not end with `/`, and everything cut off is `/`. |
| `Paths.AfterLastSlash` | sanny.go:117 | The result is a slash-free suffix of the input, and a `/` directly precedes it when it is not the whole input. |
| `Paths.Base` | sanny.go:117 | Base is never empty. It is `.` for the empty path. It is `/` exactly for a non-empty path made only of slashes. Otherwise it contains no `/` and is the last element of the path once trailing slashes are removed: a suffix of the trimmed path that is the whole of it or directly follows a `/`. |
| `Paths.TrimTrailingSlashesOfTail` | sanny.go:117 | Trimming a path that does not end in `/`, followed by any run of slashes, gives back that path. |
| `Paths.BaseOfLastElement` | sanny.go:117 | The Base of a directory part, a non-empty slash-free element and any run of trailing slashes is that element. |
| `Paths.LocalFileName` | sanny.go:117-120 | The local name is never empty, `.` or `/`, and contains no `/`. It is Base's result unless that is `.` or `/`, in which case it is `downloaded_file`. |
| `Paths.FallbackCases` | sanny.go:117-120 | The fallback is used exactly for the empty URL, a URL of only slashes, and a URL whose last element is `.`. |
| `Paths.LocalFileNameOfEntry` | sanny.go:117-120 | An accepted entry, whether alone or after `<prefix>/`, is saved under its own name. |
| `Scenarios.ParentFileDirectoryExternal` | sanny.go:56-101 | Of the listing `../`, `report.pdf`, `sub/` and `https://x.com/a.zip`, only `report.pdf` is collected. |
| `Scenarios.NestedAndRepeated` | sanny.go:56-101 | An anchor inside an anchor is collected after it. Two `href` attributes of one anchor both count, in order. An `href` on `<link>` is ignored. |
| `Scenarios.RejectedNames` | sanny.go:77-90 | `.bashrc`, an 11-character extension and a query string are rejected. |
| `Scenarios.FileNameOfUrl` | sanny.go:117-120 | `http://host/dir/report.pdf` is saved as `report.pdf`. |
| `Scenarios.BaseOfDirectoryPath` | sanny.go:117 | Base of `dir/sub//` is `sub`. |
| `Scenarios.FallbackFileNames` | sanny.go:117-120 | The empty URL and `///` are saved as `downloaded_file`. |

## Left out

- The HTTP requests and status checks in `ParseDirectory` and `downloadFile` (sanny.go:32-40, 134-142) are network I/O.
- `html.Parse` is a foreign library (sanny.go:49). Its outcome is an input: a tree, or an error that `ParseHTML` passes on.
- The filesystem work is left out: `EnsureDir`, `fileExists`, `os.Create`, `io.Copy` and `filepath.Join` (sanny.go:19-21, 105-112, 123-132, 144-147). As a result, the nil dereference in `fileExists` after a `Stat` error other than not-exist is not modelled.
- `url.Parse`, `url.ResolveReference` and `URL.String` (sanny.go:158, 184, 190) are library calls. The model does not capture how a resolved URL is formed from an entry. `LocalFileNameOfEntry` assumes the URL string ends with `/` and then the entry. The entry's characters are all unreserved, so escaping does not change them.
- The semaphore channel, the goroutines, the `sync.WaitGroup` and the `panic` on a download error are left out (sanny.go:179-198). Their whole purpose is concurrency.
- Flag parsing, `strconv.Atoi` and all `fmt`/`log` output (sanny.go:154-178) are configuration and presentation.
- `regexp.Compile` and its `log.Fatal` branch (sanny.go:78-81) are left out, because the pattern is a constant. The match is the predicate `FileNamePattern`.
- Strings are sequences of Unicode characters, not Go's UTF-8 bytes. The grammar and the prefix and suffix tests only involve ASCII, so this matters only for invalid UTF-8, which RE2 reads as U+FFFD, a character the grammar rejects anyway.
- `Paths.Base`: models `filepath.Base` with the Unix separator `/` only. Windows volume names and `\` are not modelled.
- `Paths.Url.NormalizeListingPath`: `u.Path += "/"` leaves Go's `RawPath` untouched. The model's `Url` holds only the scheme, host, path and query, so that detail is not captured.
