/** The records the bookmark service exchanges with the health check. */
module Bookmarks {
  import opened Wrappers

  /**
   * One stored bookmark. The title, description and creation date the
   * service also sends are never read by the health check and are omitted.
   */
  datatype Bookmark = Bookmark(id: int, url: string, tagNames: seq<string>)

  /** One page of the paginated bookmark list; `next` is empty on the last page. */
  datatype APIResponse = APIResponse(count: int, next: string, previous: string, results: seq<Bookmark>)

  /** What one page fetch returns: the decoded page, or the error that stopped it. */
  type FetchResult = Result<APIResponse>

  /** One tag update sent to the service: bookmark `id` gets exactly `tags`. */
  datatype Patch = Patch(id: int, tags: seq<string>)
}
