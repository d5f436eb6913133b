/** HTTP responses, shared by the Django views and the FastAPI endpoints. */
module Http {
  import opened Text

  /** A status code and the `message`, `error` or `detail` text of the body. */
  datatype Response = Response(code: int, text: string)

  const NoIdsText := "No media IDs provided for deletion."
  const NoMatchText := "No matching media files found for deletion."

  function DeletedText(count: nat): string {
    Decimal(count) + " media file(s) deleted successfully."
  }

  /**
   * The media-delete outcome once the complaint is found and the caller
   * allowed: an empty id list is refused before anything is deleted, a
   * delete that matched nothing is refused after, and otherwise the count
   * is reported.  `deletedCount` is read only when ids were given.
   */
  function MediaDeleteResponse(idsGiven: bool, deletedCount: nat): (r: Response)
    ensures r.code == 200 <==> idsGiven && deletedCount > 0
    ensures !idsGiven ==> r == Response(400, NoIdsText)
    ensures idsGiven && deletedCount == 0 ==> r == Response(400, NoMatchText)
    ensures r.code == 200 ==> r.text == DeletedText(deletedCount)
  {
    if !idsGiven then Response(400, NoIdsText)
    else if deletedCount == 0 then Response(400, NoMatchText)
    else Response(200, DeletedText(deletedCount))
  }
}
