# linkding health check: a Dafny model

The health check audits the bookmarks stored in a linkding instance. It
fetches every bookmark page by page, sends a HEAD request to each bookmark's
URL, and rewrites the bookmark's tags. A link that fails gets a tag of the
form `@HEALTH_<reason>`, where the reason is `DNS`, `other` or `HTTP_<status>`.
A link that works again loses all of its `@HEALTH_` tags.

The model keeps the decision logic of `main.go` and treats the network as
collaborators:

- `Wrappers`: `Option`, and `Result` for Go's `(value, error)` returns.
- `Decimal`: how `%d` prints an integer, with a parser proved to undo it.
- `Bookmarks`: the `Bookmark` and `APIResponse` records and a `Patch`
  (one tag update).
- `Classifier`: `checkURLValidity` as a pure function of an abstract probe
  result, and the four-way outcome taxonomy that its `(valid, errorType)`
  pair encodes.
- `Tags`: the health-tag derivation, the recovery filter, the add-if-absent
  step and the per-bookmark decision (`Reconcile`). The filter and the scan
  are source loops, so they are methods proved against functions.
- `Service`: the bookmark service as a class. Page fetches are answered from
  a fixed, finite sequence of responses. Ghost logs record every URL
  requested and every tag update sent.
- `Driver`: the pagination loop, the reconciliation loop and a whole pass
  (`Run`), plus lemmas about the updates a pass sends.

The probe is a parameter `probe: string -> ProbeResult` that gives the
result of probing each URL. The reconciliation loop also returns the URLs
it probed in a ghost log; the log is bookkeeping kept by the loop itself.
What a pass does with each probe result is stated by the update log,
through `PatchesFor`.

A failing bookmark is patched on every pass, even when its health tag was
already there and its tags do not change (main.go:221-225). `Reconcile`
therefore sets `patch` for every failure, and `RepeatedFailureExample`
shows a patch that leaves the tags unchanged.

## Model

| member | source | states |
|---|---|---|
| `Decimal.NatToDecimal` | main.go:131 | the rendering is a non-empty string of digits that starts with `0` only for zero |
| `Decimal.IntToDecimal` | main.go:131 | the rendering is non-empty and starts with `-` exactly for negative numbers |
| `Decimal.NatToDecimalValue` | main.go:131 | the digits read back as the number printed |
| `Decimal.ParseIntToDecimal` | main.go:131 | parsing what `%d` prints gives back the integer |
| `Decimal.IntToDecimalInjective` | main.go:131 | different integers print differently |
| `Classifier.CheckURLValidity` | main.go:101-132 | valid exactly for a response with status in [200,400), and then the error type is empty; any other status gives `HTTP_<status>`; a send error gives `other`; a construction error gives `DNS` for a DNS error, `other` otherwise |
| `Classifier.ValidityEncodesOutcome` | main.go:104-131 | reading the pair back gives the probe's outcome (reachable, DNS, other, or HTTP failure with its status), so the pair loses nothing |
| `Classifier.SameValidityIffSameOutcome` | main.go:104-131 | two probes get the same pair if and only if they have the same outcome |
| `Tags.HealthTagFor` | main.go:197-205 | every derived tag starts with `@HEALTH_` and is the prefix followed by the error type, the `DNS` and `other` branches included |
| `Tags.HealthTagForInjective` | main.go:198-205 | different error types give different tags |
| `Tags.HealthTagIdentifiesOutcome` | main.go:198-205 | two failing probes with the same tag have the same outcome |
| `Tags.WithoutHealthTags` | main.go:177-184 | the filtered list has no `@HEALTH_` tag, is no longer than the input and holds only input tags |
| `Tags.WithoutHealthTagsAppend` | main.go:180-184 | filtering a concatenation filters each part |
| `Tags.WithoutHealthTagsKeepsClean` | main.go:180-184 | a list with no health tag is left unchanged |
| `Tags.WithoutHealthTagsIdempotent` | main.go:178-184 | filtering twice equals filtering once |
| `Tags.WithoutHealthTagsLength` | main.go:186-187 | the length is unchanged if and only if the list had no health tag |
| `Tags.WithoutHealthTagsIsSubsequence` | main.go:180-184 | the kept tags keep their original relative order |
| `Tags.WithoutHealthTagsCounts` | main.go:180-184 | each non-health tag is kept as often as it occurred; no health tag is kept |
| `Tags.WithoutHealthTagsKeepsDistinct` | main.go:180-184 | a list without duplicates stays without duplicates |
| `Tags.RecoveryFilterFacts` | main.go:178-187 | the filter is idempotent, keeps order, changes the length exactly when a health tag was present, and leaves a clean list unchanged |
| `Tags.RemoveHealthTags` | main.go:178-184 | the loop's result is exactly the filtered list |
| `Tags.WithTag` | main.go:207-219 | the old tags are a prefix of the result; the tag is present; the list is unchanged exactly when the tag was there; the tag occurs once if it was absent; every other tag's count is unchanged |
| `Tags.WithTagIdempotent` | main.go:207-219 | adding the same tag again changes nothing |
| `Tags.WithTagKeepsDistinct` | main.go:207-219 | adding keeps a list free of duplicates |
| `Tags.AddTagIfAbsent` | main.go:209-219 | the scan with early exit, then the append, gives exactly `WithTag` |
| `Tags.Reconcile` | main.go:173-226 | the non-health tags are always the same as before; on recovery no health tag is left, order is kept, and a patch is sent if and only if a health tag was removed, that is, the tags changed; on failure every old tag, older health tags included, stays in place, the derived tag is present, the tags are unchanged exactly when it was already there, otherwise exactly one copy of it is appended, and a patch is always sent |
| `Tags.ReconcileIdempotent` | main.go:173-226 | applying the same classification again leaves the tags as they are; the repeat sends a patch exactly for a failure |
| `Tags.ReconcileKeepsDistinct` | main.go:173-226 | reconciliation never creates a duplicate tag |
| `Tags.FirstFailureExample` | main.go:204-219 | no tags and status 404 give `["@HEALTH_HTTP_404"]` with a patch |
| `Tags.RecoveryExample` | main.go:177-192 | `["work", "@HEALTH_DNS"]` on recovery gives `["work"]` with a patch |
| `Tags.RepeatedFailureExample` | main.go:207-225 | `["@HEALTH_HTTP_500"]` failing with 500 again keeps its tags and is still patched |
| `Tags.ChangedFailureExample` | main.go:207-219 | `["@HEALTH_HTTP_500"]` failing on DNS becomes `["@HEALTH_HTTP_500", "@HEALTH_DNS"]`, so markers accumulate |
| `Service.BookmarkService.FetchBookmarks` | main.go:34-61 | answers the next response in sequence and logs the URL requested |
| `Service.BookmarkService.UpdateBookmarkTags` | main.go:64-99 | logs the update with the bookmark and its tags and reports whether it was accepted |
| `Driver.FirstPageURL` | main.go:149 | the first page URL is non-empty and starts with the API base URL |
| `Driver.FailureIndex` | main.go:155-160 | counts the fetches before the first failed one: all of those succeeded, and the next one failed |
| `Driver.Collected` | main.go:162 | the bookmarks of the first pages, appended page after page (its properties are stated by `CollectedPage`) |
| `Driver.CollectedPage` | main.go:162 | each page's bookmarks appear, in page order, right after those of all earlier pages |
| `Driver.FetchAll` | main.go:151-165 | without a failed fetch, the result is every page's bookmarks concatenated in page order, after exactly one fetch per page; otherwise the error of the first failed fetch, after that many fetches; the first request is the base URL with `/?limit=100`, each later one the previous page's `Next` |
| `Driver.PatchesFor` | main.go:173-226 | at most one update per bookmark, always for that bookmark; none exactly when the link is valid and the bookmark carries no health tag |
| `Driver.PlannedPatches` | main.go:170-227 | the updates of a pass, bookmark after bookmark, at most one per bookmark |
| `Driver.ConcatMapBounded` | main.go:170 | at most one update per bookmark gives at most as many updates as bookmarks |
| `Driver.ReconcileOne` | main.go:171-226 | sends exactly the update `Reconcile` decides for the bookmark |
| `Driver.ReconcileAll` | main.go:170-227 | probes every bookmark in order and sends the planned updates in bookmark order; a refused update does not stop the loop |
| `Driver.Run` | main.go:149-227 | a pass completes exactly when no fetch fails; if one fails, nothing is probed and no update is sent; otherwise every fetched bookmark is probed and reconciled |
| `Driver.ConcatMapAppend` | main.go:170 | the updates for a concatenation of bookmark lists are the updates for each list in turn |
| `Driver.FailingLinkIsPatched` | main.go:193-225 | every failing bookmark gets an update with its old tags plus the tag of its failure |
| `Driver.PatchesKeepUserTags` | main.go:170-227 | every update is for a fetched bookmark and keeps that bookmark's non-health tags exactly |
| `Driver.CleanCollectionIsNotPatched` | main.go:173-192 | if every link is reachable and no bookmark has a health tag, the pass sends no update |
| `Driver.SecondPassChangesNothing` | main.go:170-227 | a bookmark with no update stays as it was; once every update of the pass has been applied, a second pass with the same probe results changes no bookmark |

## Left out

- HTTP itself (`http.Client`, `NewRequest`, `Do`, the HEAD, GET and PATCH requests, the `Authorization`, `User-Agent` and `Content-Type` headers, the PATCH URL `<base>/<id>/`): the service and the probe are modelled as abstract collaborators.
- JSON encoding and decoding of pages and update bodies: this lives in Go's library, not in this code. An undecodable page is one more failed fetch.
- Reading `API_TOKEN` and `API_URL` from the environment, and the early exits when they are unset: configuration plumbing. The token appears nowhere in the model.
- Every progress and error line printed: output only.
- The `Title`, `Description` and `DateAdded` fields of a bookmark: the logic never reads them.
- The text of a failed update's error (main.go:93-96): only whether the update was accepted is modelled, and the loop ignores that result, as the source only prints it.
- Service.BookmarkService.FetchBookmarks: answers from a fixed sequence whose `Next` is empty exactly on the last answered page, whatever URL is asked. A service whose cursors loop forever, which would keep the source fetching without end, is not modelled.
- Service.BookmarkService.UpdateBookmarkTags: whether the service accepts an update is fixed per bookmark id (`rejected`), not modelled from network conditions.
- `checkURLValidity` gets the probe result as an input. In Go, `http.NewRequest` does no name lookup, so its DNS branch (main.go:107-110) probably never fires, and DNS failures arrive as send errors classified `other`. The model follows the code's branches as written.
- Go's `int` is 32 or 64 bits wide depending on the platform; status codes and bookmark ids are unbounded integers here. No arithmetic is done on them, so this makes no difference.
- The probe result is a fixed function of the URL, so two bookmarks with the same URL, and two passes, always get the same result. The source probes each time and can get different answers, for example after a transient failure. No property here depends on this.
- Concurrency: the source is sequential.
