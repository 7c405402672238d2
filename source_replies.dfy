/** What a registry search hands back to the orchestrator: the reply dict
    with `status`, `brands`, `total_found` and, on failure, `error_message`. */
module SourceReplies {
  import opened Wrappers

  /** `"success"` or anything else (`"error"`). */
  datatype Status = Success | Error

  datatype SourceReply = SourceReply(
    status: Status,
    brands: seq<string>,
    totalFound: int,
    errorMessage: Option<string>)

  /** A search call either returns its reply dict or raises. */
  datatype Call = Returned(reply: SourceReply) | Raised(message: string)

  /** `reply.get('error_message', '未知错误')` */
  function ErrorDetail(reply: SourceReply): string {
    reply.errorMessage.GetOr("未知错误")
  }
}
