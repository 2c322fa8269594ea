/**
 * The values the changelog page works with: the manifest, the version
 * records and their update items, and what a `fetch` of a JSON resource
 * can come back with.
 */
module Records {

  /** Present-or-missing value; `None` plays the part of the script's `null`. */
  datatype Option<+T> = None | Some(value: T) {
    predicate IsFailure() { None? }

    function PropagateFailure<U>(): Option<U>
      requires None?
    {
      None
    }

    function Extract(): T
      requires Some?
    {
      value
    }
  }

  /** What `await response.json()` yields: a value of the expected shape,
      the JSON literal `null`, or a rejection because the body is not JSON. */
  datatype Json<+T> = Parsed(value: T) | Null | Malformed

  /** What `await fetch(path)` yields: a rejection (transport failure) or a
      response with its `ok` flag and the body it would parse to. */
  datatype FetchOutcome<+T> = NetworkError | Response(ok: bool, body: Json<T>)

  /** The network seen from the page: each relative path has one outcome. */
  type Network<T> = string -> FetchOutcome<T>

  /** `versions-index.json`: `{ "versionFiles": [ ... ] }`. */
  datatype Manifest = Manifest(versionFiles: seq<string>)

  /** One entry of a version's `updates`; `tag` is the optional `type`. */
  datatype UpdateItem = UpdateItem(text: string, tag: Option<string>)

  /** One version file: `{ "version", "date", "updates" }`. */
  datatype VersionRecord = VersionRecord(version: string, date: string, updates: seq<UpdateItem>)

  /** The outcome delivers a usable value: the promise resolved, the status
      was ok, and the body parsed to a value of the expected shape. */
  predicate Delivered<T>(o: FetchOutcome<T>)
  {
    o.Response? && o.ok && o.body.Parsed?
  }
}
