/** The shapes exchanged with the GitHub REST "repository contents" endpoint,
    `GET /repos/{owner}/{repo}/contents/{path}` and `PUT` on the same URL.
    The HTTP client itself is not modelled: every response is a value that
    the caller hands to the component, and every request the component would
    send is returned as a value. */
module Api {
  import opened Common

  /** The `type` field of a content item. */
  datatype Kind = Dir | File | Symlink | Submodule

  /** One item of a contents response, with the fields the components read
      and one (`url`) that they drop. */
  datatype Item = Item(
    name: string,
    kind: Kind,
    path: string,
    size: nat,
    downloadUrl: Option<string>,
    sha: string,
    url: string)

  /** A directory path answers with an array of items, a file path with a
      single object. */
  datatype Contents = Directory(items: seq<Item>) | Single(item: Item)

  /** What a rejected request carries: `error.response?.data?.message` and
      `error.message`, either of which may be missing. */
  datatype ErrorInfo = ErrorInfo(responseMessage: Option<string>, message: Option<string>)

  /** The settled outcome of one request. */
  datatype Outcome<T> = Ok(data: T) | Fail(err: ErrorInfo)

  /** The request body's `content`: base64 (RFC 4648 section 4) of the UTF-8
      (RFC 3629) bytes of `text`, computed by browser built-ins and kept
      symbolic here. */
  datatype Payload = Base64Utf8(text: string)

  datatype GetRequest = GetRequest(owner: string, repo: string, path: string)

  /** A `sha` of `None` asks the server to create the file; `Some(h)` asks it
      to replace the version `h`. */
  datatype PutRequest = PutRequest(
    owner: string,
    repo: string,
    path: string,
    message: string,
    content: Payload,
    sha: Option<string>)
}
