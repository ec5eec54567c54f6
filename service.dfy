/**
 * The remote bookmark service, seen from the health check: it answers page
 * fetches from a fixed sequence of responses and accepts or rejects tag
 * updates. Ghost logs record what was asked of it.
 */
module Service {
  import opened Wrappers
  import opened Bookmarks

  /**
   * A finite paginated listing: the cursor of an answered page is empty on
   * the last page and only there, so following it ends after at most
   * `|pages|` fetches.
   */
  predicate EndsExactlyAtLast(pages: seq<FetchResult>) {
    |pages| > 0 &&
    forall i :: 0 <= i < |pages| && pages[i].Ok? ==> (pages[i].value.next == "" <==> i == |pages| - 1)
  }

  class BookmarkService {
    /** The answers to the first, second, ... page fetch. */
    const pages: seq<FetchResult>
    /** Bookmarks whose tag update the service refuses. */
    const rejected: set<int>
    /** How many page fetches have been answered. */
    var served: nat
    /** The URL of every page fetch, in order. */
    ghost var requested: seq<string>
    /** Every tag update sent, in order, accepted or not. */
    ghost var patches: seq<Patch>

    ghost predicate Valid()
      reads this
    {
      EndsExactlyAtLast(pages) && served <= |pages| && |requested| == served
    }

    constructor (pages: seq<FetchResult>, rejected: set<int>)
      requires EndsExactlyAtLast(pages)
      ensures Valid()
      ensures this.pages == pages && this.rejected == rejected
      ensures served == 0 && requested == [] && patches == []
    {
      this.pages := pages;
      this.rejected := rejected;
      served := 0;
      requested := [];
      patches := [];
    }

    /** `fetchBookmarks`: answers the next page, whatever URL is asked for. */
    method FetchBookmarks(url: string) returns (r: FetchResult)
      requires Valid() && served < |pages|
      modifies this
      ensures Valid()
      ensures r == pages[old(served)]
      ensures served == old(served) + 1 && requested == old(requested) + [url]
      ensures patches == old(patches)
    {
      r := pages[served];
      served := served + 1;
      requested := requested + [url];
    }

    /** `updateBookmarkTags`: records the update; `ok` is false when the service refuses it. */
    method UpdateBookmarkTags(id: int, tags: seq<string>) returns (ok: bool)
      requires Valid()
      modifies this
      ensures Valid()
      ensures ok <==> id !in rejected
      ensures patches == old(patches) + [Patch(id, tags)]
      ensures served == old(served) && requested == old(requested)
    {
      ok := id !in rejected;
      patches := patches + [Patch(id, tags)];
    }
  }
}
