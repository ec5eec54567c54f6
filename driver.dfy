/**
 * One health-check pass: fetch every bookmark page by page, then classify
 * each bookmark's link and send the tag updates its classification calls for.
 */
module Driver {
  import opened Wrappers
  import opened Bookmarks
  import opened Classifier
  import opened Tags
  import opened Service

  // ---------------------------------------------------------------------
  // Fetch phase

  /** The first page asked for: the API base URL with a page size of 100. */
  function FirstPageURL(apiBaseURL: string): (url: string)
    ensures url != "" && apiBaseURL <= url
  {
    apiBaseURL + "/?limit=100"
  }

  /** The cursor a fetch result hands on; empty for a failed fetch. */
  function NextOf(r: FetchResult): string {
    if r.Ok? then r.value.next else ""
  }

  /** The i-th fetch asked for the first page, every later one for the cursor of the page before. */
  ghost predicate FollowsCursor(apiBaseURL: string, pages: seq<FetchResult>, requested: seq<string>) {
    |requested| <= |pages| &&
    forall i :: 0 <= i < |requested| ==>
      requested[i] == if i == 0 then FirstPageURL(apiBaseURL) else NextOf(pages[i - 1])
  }

  /** How many fetches succeed before the first failing one (all of them if none fails). */
  function FailureIndex(pages: seq<FetchResult>): (k: nat)
    ensures k <= |pages|
    ensures forall i :: 0 <= i < k ==> pages[i].Ok?
    ensures k < |pages| ==> pages[k].Err?
  {
    if pages == [] || pages[0].Err? then 0 else 1 + FailureIndex(pages[1..])
  }

  /** The first `k` fetches all succeeded. */
  predicate AllOk(pages: seq<FetchResult>, k: nat) {
    k <= |pages| && forall i :: 0 <= i < k ==> pages[i].Ok?
  }

  /** The bookmarks of the first `k` pages, page after page, each page in its own order. */
  function Collected(pages: seq<FetchResult>, k: nat): seq<Bookmark>
    requires AllOk(pages, k)
  {
    if k == 0 then [] else Collected(pages, k - 1) + pages[k - 1].value.results
  }

  /**
   * Each page's bookmarks stand, in their page order, right after those of
   * all earlier pages: the collection is the concatenation of the pages.
   */
  lemma {:induction false} CollectedPage(pages: seq<FetchResult>, j: nat, k: nat)
    requires j < k && AllOk(pages, k)
    ensures |Collected(pages, j)| + |pages[j].value.results| <= |Collected(pages, k)|
    ensures Collected(pages, k)[|Collected(pages, j)|..|Collected(pages, j)| + |pages[j].value.results|]
         == pages[j].value.results
    decreases k
  {
    var lo := |Collected(pages, j)|;
    var hi := lo + |pages[j].value.results|;
    if k == j + 1 {
      assert Collected(pages, k) == Collected(pages, j) + pages[j].value.results;
    } else {
      CollectedPage(pages, j, k - 1);
      var init := Collected(pages, k - 1);
      assert Collected(pages, k) == init + pages[k - 1].value.results;
      assert (init + pages[k - 1].value.results)[lo..hi] == init[lo..hi];
    }
  }

  /** The fetch index at which a pass that stops at failure index `k` ends. */
  lemma FailureIndexUnique(pages: seq<FetchResult>, k: nat)
    requires k <= |pages|
    requires forall i :: 0 <= i < k ==> pages[i].Ok?
    requires k < |pages| ==> pages[k].Err?
    ensures FailureIndex(pages) == k
  {
  }

  /**
   * The pagination loop: start at the first page, follow each page's cursor
   * until it is empty, appending each page's bookmarks; stop at the first
   * failed fetch.
   */
  method FetchAll(service: BookmarkService, apiBaseURL: string) returns (r: Result<seq<Bookmark>>)
    requires service.Valid() && service.served == 0
    modifies service
    ensures service.Valid() && service.patches == old(service.patches)
    ensures FollowsCursor(apiBaseURL, service.pages, service.requested)
    ensures var k := FailureIndex(service.pages);
      if k == |service.pages| then r == Ok(Collected(service.pages, k)) && service.served == k
      else r == Err(service.pages[k].message) && service.served == k + 1
  {
    var allBookmarks: seq<Bookmark> := [];
    var nextURL := FirstPageURL(apiBaseURL);
    while nextURL != ""
      invariant service.Valid() && service.patches == old(service.patches)
      invariant AllOk(service.pages, service.served)
      invariant allBookmarks == Collected(service.pages, service.served)
      invariant nextURL == if service.served == 0 then FirstPageURL(apiBaseURL)
                           else service.pages[service.served - 1].value.next
      invariant FollowsCursor(apiBaseURL, service.pages, service.requested)
      decreases |service.pages| - service.served
    {
      ghost var before := service.requested;
      var response := service.FetchBookmarks(nextURL);
      assert service.requested[|before|] == nextURL;
      if response.Err? {
        FailureIndexUnique(service.pages, service.served - 1);
        return Err(response.message);
      }
      allBookmarks := allBookmarks + response.value.results;
      nextURL := response.value.next;
    }
    FailureIndexUnique(service.pages, service.served);
    return Ok(allBookmarks);
  }

  // ---------------------------------------------------------------------
  // Reconcile phase

  /** The classification of a bookmark's link under the probe outcomes `probe`. */
  function Classify(b: Bookmark, probe: string -> ProbeResult): Validity {
    CheckURLValidity(probe(b.url))
  }

  /** The decision for one bookmark. */
  function DecisionFor(b: Bookmark, probe: string -> ProbeResult): Decision {
    Reconcile(b.tagNames, Classify(b, probe))
  }

  /** The update sent for one bookmark, if any. */
  function PatchesFor(b: Bookmark, probe: string -> ProbeResult): (r: seq<Patch>)
    ensures |r| <= 1 && forall p :: p in r ==> p.id == b.id
    ensures r == [] <==> Classify(b, probe).valid && NoHealthTags(b.tagNames)
  {
    var d := DecisionFor(b, probe);
    if d.patch then [Patch(b.id, d.newTags)] else []
  }

  /** `f` applied to each element in turn, the results concatenated. */
  function ConcatMap<T, U>(xs: seq<T>, f: T -> seq<U>): seq<U> {
    if xs == [] then [] else ConcatMap(xs[..|xs| - 1], f) + f(xs[|xs| - 1])
  }

  lemma {:induction false} ConcatMapAppend<T, U>(a: seq<T>, b: seq<T>, f: T -> seq<U>)
    ensures ConcatMap(a + b, f) == ConcatMap(a, f) + ConcatMap(b, f)
    decreases |b|
  {
    if b == [] {
      assert a + b == a;
    } else {
      var n := |b| - 1;
      assert (a + b)[..|a + b| - 1] == a + b[..n];
      assert (a + b)[|a + b| - 1] == b[n];
      ConcatMapAppend(a, b[..n], f);
    }
  }

  /** The update-per-bookmark function of a pass under the probe outcomes `probe`. */
  function UpdatesUnder(probe: string -> ProbeResult): Bookmark -> seq<Patch> {
    b => PatchesFor(b, probe)
  }

  /** At most `n` results per element give at most `n` per element in all. */
  lemma {:induction false} ConcatMapBounded<T, U>(xs: seq<T>, f: T -> seq<U>, n: nat)
    requires forall x :: |f(x)| <= n
    ensures |ConcatMap(xs, f)| <= n * |xs|
  {
    if xs != [] {
      ConcatMapBounded(xs[..|xs| - 1], f, n);
    }
  }

  /** The updates a pass over `bookmarks` sends, in bookmark order: at most one per bookmark. */
  function PlannedPatches(bookmarks: seq<Bookmark>, probe: string -> ProbeResult): (r: seq<Patch>)
    ensures |r| <= |bookmarks|
  {
    ConcatMapBounded(bookmarks, UpdatesUnder(probe), 1);
    ConcatMap(bookmarks, UpdatesUnder(probe))
  }

  /** The URL of each bookmark, in order. */
  function URLs(bookmarks: seq<Bookmark>): (urls: seq<string>)
    ensures |urls| == |bookmarks| && forall i :: 0 <= i < |bookmarks| ==> urls[i] == bookmarks[i].url
  {
    if bookmarks == [] then [] else URLs(bookmarks[..|bookmarks| - 1]) + [bookmarks[|bookmarks| - 1].url]
  }

  /**
   * The bookmarks as the service holds them once every update of the pass
   * has been applied (a refused update leaves its bookmark as it was).
   */
  function Updated(bookmarks: seq<Bookmark>, probe: string -> ProbeResult): (u: seq<Bookmark>)
    ensures |u| == |bookmarks|
    ensures forall i :: 0 <= i < |bookmarks| ==>
      u[i] == bookmarks[i].(tagNames := DecisionFor(bookmarks[i], probe).newTags)
  {
    seq(|bookmarks|, i requires 0 <= i < |bookmarks| =>
      bookmarks[i].(tagNames := DecisionFor(bookmarks[i], probe).newTags))
  }

  /** One iteration of the reconciliation loop, for one bookmark. */
  method ReconcileOne(service: BookmarkService, bookmark: Bookmark, probe: string -> ProbeResult)
    requires service.Valid()
    modifies service
    ensures service.Valid()
    ensures service.served == old(service.served) && service.requested == old(service.requested)
    ensures service.patches == old(service.patches) + PatchesFor(bookmark, probe)
  {
    var v := CheckURLValidity(probe(bookmark.url));
    if v.valid {
      var tags := bookmark.tagNames;
      var updatedTags := RemoveHealthTags(tags);
      if |updatedTags| != |tags| {
        var _ := service.UpdateBookmarkTags(bookmark.id, updatedTags);
      }
    } else {
      var tag := HealthTagFor(v.errorType);
      var tags := AddTagIfAbsent(bookmark.tagNames, tag);
      var _ := service.UpdateBookmarkTags(bookmark.id, tags);
    }
  }

  /**
   * The reconciliation loop: probe each bookmark's URL in order, then either
   * strip its health tags (patching only if some were removed) or add the
   * tag of its failure (patching always). A refused patch is skipped.
   */
  method ReconcileAll(service: BookmarkService, bookmarks: seq<Bookmark>, probe: string -> ProbeResult)
    returns (ghost probed: seq<string>)
    requires service.Valid()
    modifies service
    ensures service.Valid()
    ensures service.served == old(service.served) && service.requested == old(service.requested)
    ensures service.patches == old(service.patches) + PlannedPatches(bookmarks, probe)
    ensures probed == URLs(bookmarks)
  {
    probed := [];
    var i := 0;
    while i < |bookmarks|
      invariant 0 <= i <= |bookmarks|
      invariant service.Valid()
      invariant service.served == old(service.served) && service.requested == old(service.requested)
      invariant service.patches == old(service.patches) + PlannedPatches(bookmarks[..i], probe)
      invariant probed == URLs(bookmarks[..i])
    {
      var bookmark := bookmarks[i];
      assert bookmarks[..i + 1][..i] == bookmarks[..i];
      assert PlannedPatches(bookmarks[..i + 1], probe) == PlannedPatches(bookmarks[..i], probe) + PatchesFor(bookmark, probe) by {
        assert UpdatesUnder(probe)(bookmark) == PatchesFor(bookmark, probe);
      }
      probed := probed + [bookmark.url];
      ReconcileOne(service, bookmark, probe);
      i := i + 1;
    }
    assert bookmarks[..i] == bookmarks;
  }

  /**
   * A whole pass. On a failed fetch it stops before any link is probed or
   * any update sent; otherwise it reconciles every fetched bookmark.
   */
  method Run(service: BookmarkService, apiBaseURL: string, probe: string -> ProbeResult)
    returns (completed: bool, ghost probed: seq<string>)
    requires service.Valid() && service.served == 0 && service.patches == []
    modifies service
    ensures service.Valid()
    ensures FollowsCursor(apiBaseURL, service.pages, service.requested)
    ensures completed <==> FailureIndex(service.pages) == |service.pages|
    ensures completed ==>
      var all := Collected(service.pages, |service.pages|);
      service.served == |service.pages| && probed == URLs(all) && service.patches == PlannedPatches(all, probe)
    ensures !completed ==>
      service.served == FailureIndex(service.pages) + 1 && probed == [] && service.patches == []
  {
    var fetched := FetchAll(service, apiBaseURL);
    if fetched.Err? {
      return false, [];
    }
    probed := ReconcileAll(service, fetched.value, probe);
    completed := true;
  }

  // ---------------------------------------------------------------------
  // Properties of a pass

  /** Every failing link gets an update carrying its old tags plus the tag of its failure. */
  lemma FailingLinkIsPatched(bookmarks: seq<Bookmark>, probe: string -> ProbeResult, j: nat)
    requires j < |bookmarks| && !Classify(bookmarks[j], probe).valid
    ensures Patch(bookmarks[j].id, WithTag(bookmarks[j].tagNames, HealthTagFor(Classify(bookmarks[j], probe).errorType)))
         in PlannedPatches(bookmarks, probe)
  {
    var b, f := bookmarks[j], UpdatesUnder(probe);
    assert bookmarks == bookmarks[..j] + [b] + bookmarks[j + 1..];
    ConcatMapAppend(bookmarks[..j] + [b], bookmarks[j + 1..], f);
    ConcatMapAppend(bookmarks[..j], [b], f);
    assert ConcatMap([b], f) == f(b) by {
      assert [b][..0] == [];
    }
    assert f(b) == PatchesFor(b, probe);
  }

  /**
   * Every update is for a fetched bookmark and leaves that bookmark's
   * non-health tags exactly as they were.
   */
  lemma {:induction false} PatchesKeepUserTags(bookmarks: seq<Bookmark>, probe: string -> ProbeResult)
    ensures forall p :: p in PlannedPatches(bookmarks, probe) ==>
      exists j :: (0 <= j < |bookmarks| && bookmarks[j].id == p.id
        && WithoutHealthTags(p.tags) == WithoutHealthTags(bookmarks[j].tagNames))
  {
    if bookmarks != [] {
      var n := |bookmarks| - 1;
      var init := bookmarks[..n];
      PatchesKeepUserTags(init, probe);
      forall p | p in PlannedPatches(bookmarks, probe)
        ensures exists j :: (0 <= j < |bookmarks| && bookmarks[j].id == p.id
          && WithoutHealthTags(p.tags) == WithoutHealthTags(bookmarks[j].tagNames))
      {
        if p in PlannedPatches(init, probe) {
          var j :| 0 <= j < |init| && init[j].id == p.id
            && WithoutHealthTags(p.tags) == WithoutHealthTags(init[j].tagNames);
          assert bookmarks[j] == init[j];
        } else {
          assert p in UpdatesUnder(probe)(bookmarks[n]);
          assert p in PatchesFor(bookmarks[n], probe);
        }
      }
    }
  }

  /** A pass over links that are all reachable and carry no health tag sends nothing. */
  lemma {:induction false} CleanCollectionIsNotPatched(bookmarks: seq<Bookmark>, probe: string -> ProbeResult)
    requires forall j :: 0 <= j < |bookmarks| ==>
      Classify(bookmarks[j], probe).valid && NoHealthTags(bookmarks[j].tagNames)
    ensures PlannedPatches(bookmarks, probe) == []
  {
    if bookmarks != [] {
      CleanCollectionIsNotPatched(bookmarks[..|bookmarks| - 1], probe);
    }
  }

  /**
   * A bookmark is left as it was unless an update for it is sent, so once
   * every update of the pass has been applied the service holds `Updated`;
   * from there a second pass with the same probe outcomes changes no
   * bookmark further.
   */
  lemma SecondPassChangesNothing(bookmarks: seq<Bookmark>, probe: string -> ProbeResult)
    ensures forall j :: 0 <= j < |bookmarks| ==>
      PatchesFor(bookmarks[j], probe) == [] ==> Updated(bookmarks, probe)[j] == bookmarks[j]
    ensures Updated(Updated(bookmarks, probe), probe) == Updated(bookmarks, probe)
  {
  }
}
