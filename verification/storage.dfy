/** The files both servers read, as one immutable snapshot: the token
    document, the components directory, and the component source files. */
module Storage {
  import opened Wrappers
  import opened Exceptions
  import opened Json

  /** One entry of the components directory as `readdir(..., { withFileTypes: true })`
      reports it, together with what `readdir` of that entry yields: its file
      names in listing order, or the message of the error it rejects with. */
  datatype DirEntry = DirEntry(name: string, isDirectory: bool, listing: Result<seq<string>, string>)

  datatype Store = Store(
    /** `packages/tokens/tokens.json` after `JSON.parse`, or the message of the
        error reading or parsing it rejects with. */
    tokens: Result<JValue, string>,
    /** `readdir` of `packages/ui/src/components`, or its error message. */
    components: Result<seq<DirEntry>, string>,
    /** The readable files below the components directory, keyed by their
        path relative to it (`button/button.tsx`). */
    sources: map<string, string>)

  /** `loadTokens()`: the parsed document, or the error it rejects with. */
  function LoadTokens(store: Store): (r: Result<JValue, Exception>)
    ensures r.Success? <==> store.tokens.Success?
    ensures r.Success? ==> r.value == store.tokens.value
    ensures r.Failure? ==> r.error == Error(store.tokens.error)
  {
    match store.tokens
    case Success(doc) => Success(doc)
    case Failure(message) => Failure(Error(message))
  }

  /** `saveTokens(doc)`: the store after the document is written back, so that
      the next `loadTokens` yields `doc`. */
  function SaveTokens(store: Store, doc: JValue): (s: Store)
    ensures LoadTokens(s) == Success(doc)
    ensures s.components == store.components && s.sources == store.sources
  {
    store.(tokens := Success(doc))
  }

  /** `fs.readFile` of a path relative to the components directory, with any
      error mapped to `None` as `readComponent` does. */
  function ReadSource(store: Store, path: string): (r: Option<string>)
    ensures r.Some? <==> path in store.sources
    ensures r.Some? ==> r.value == store.sources[path]
  {
    if path in store.sources then Some(store.sources[path]) else None
  }
}
