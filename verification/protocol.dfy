/** The tool-call request and response shapes both servers share, and the
    error boundary that turns a thrown error into an error-flagged reply. */
module Protocol {
  import opened Wrappers
  import opened Exceptions

  /** `{ type: 'text', text }`. */
  datatype Content = Text(text: string)

  /** `{ content, isError? }`; `isError` false stands for the absent flag. */
  datatype Response = Response(content: seq<Content>, isError: bool)

  /** `request.params`: the tool name and the arguments object, None when the
      caller sent no arguments. Only string-valued arguments are modelled. */
  datatype Request = Request(name: string, arguments: Option<map<string, string>>)

  /** A successful reply carrying one text item. */
  function Reply(text: string): Response
  {
    Response([Text(text)], false)
  }

  /** An error-flagged reply carrying one text item. */
  function ErrorReply(text: string): Response
  {
    Response([Text(text)], true)
  }

  /** The text of a reply's only item. */
  function TextOf(r: Response): string
    requires |r.content| == 1
  {
    r.content[0].text
  }

  /** The `try { ... } catch (error)` around each server's tool switch: a
      handler's own response passes through, and a thrown error becomes
      exactly one text item `Error: <message>` flagged as an error. */
  function Catch(handled: Result<Response, Exception>): (r: Response)
    ensures handled.Success? ==> r == handled.value
    ensures handled.Failure? ==> r.isError && |r.content| == 1
    ensures handled.Failure? ==> TextOf(r) == "Error: " + handled.error.message
  {
    match handled
    case Success(response) => response
    case Failure(e) => ErrorReply("Error: " + e.message)
  }

  /** `args.<key>` for an arguments object that exists: the string, or
      `undefined` (None). */
  function Argument(args: map<string, string>, key: string): Option<string>
  {
    if key in args then Some(args[key]) else None
  }

  /** A template literal's `${x}` for an argument: absent arguments print as
      `undefined`. */
  function Interpolate(arg: Option<string>): string
  {
    match arg
    case Some(s) => s
    case None => "undefined"
  }
}
