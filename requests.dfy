/** The part of a gin request context the middleware and the handlers use:
    the matched route, the handler's name, the path parameters, the query
    string and the posted form, the session cookie, the client address,
    the "CurrentUser" value, the abort flag and the responses written. */
module Requests {
  import opened Wrappers
  import opened Errors
  import opened Records
  import ApiErrors

  const STATUS_OK := 200
  const STATUS_FOUND := 302

  /** A response written to the client. */
  datatype Response =
    | ErrorJson(status: int, err: Error)        // AbortIfError's RequestError body
    | ErrorPage(status: int, message: string)   // "errors/show.html" with an error message
    | Page(status: int, template: string)       // c.HTML with any other template
    | Redirect(status: int, location: string)   // c.Redirect
    | StatusOnly(status: int)                   // c.AbortWithStatus

  class Context {
    const fullPath: string
    const handlerName: string
    const params: map<string, string>
    const query: map<string, string>
    const postForm: map<string, string>
    const sessionCookie: Option<string>
    const clientIP: string
    /** The "CurrentUser" key: None until c.Set stores a (possibly nil) user. */
    var currentUser: Option<User?>
    var aborted: bool
    var responses: seq<Response>

    constructor (fullPath: string, handlerName: string, params: map<string, string>,
                 query: map<string, string>, postForm: map<string, string>,
                 sessionCookie: Option<string>, clientIP: string)
      ensures this.fullPath == fullPath && this.handlerName == handlerName
      ensures this.params == params && this.query == query && this.postForm == postForm
      ensures this.sessionCookie == sessionCookie && this.clientIP == clientIP
      ensures currentUser.None? && !aborted && responses == []
    {
      this.fullPath := fullPath;
      this.handlerName := handlerName;
      this.params := params;
      this.query := query;
      this.postForm := postForm;
      this.sessionCookie := sessionCookie;
      this.clientIP := clientIP;
      currentUser := None;
      aborted := false;
      responses := [];
    }

    /** c.Param, c.Query and c.PostForm: "" for a name the request lacks. */
    function Param(name: string): (v: string)
      ensures name !in params ==> v == ""
      ensures name in params ==> v == params[name]
    {
      if name in params then params[name] else ""
    }

    function Query(name: string): (v: string)
      ensures name !in query ==> v == ""
      ensures name in query ==> v == query[name]
    {
      if name in query then query[name] else ""
    }

    function PostForm(name: string): (v: string)
      ensures name !in postForm ==> v == ""
      ensures name in postForm ==> v == postForm[name]
    {
      if name in postForm then postForm[name] else ""
    }

    /** The signed-in user: nil when the key is missing or holds nil. */
    function CurrentUser(): (u: User?)
      reads this
      ensures currentUser.None? ==> u == null
      ensures currentUser.Some? ==> u == currentUser.value
    {
      if currentUser.Some? then currentUser.value else null
    }

    /** c.Set("CurrentUser", user) */
    method SetCurrentUser(user: User?)
      modifies this`currentUser
      ensures currentUser == Some(user)
    {
      currentUser := Some(user);
    }

    /** Writes a response and, when `abort` holds, stops the chain. */
    method Respond(r: Response, abort: bool)
      modifies this`responses, this`aborted
      ensures responses == old(responses) + [r]
      ensures aborted == (old(aborted) || abort)
    {
      responses := responses + [r];
      if abort {
        aborted := true;
      }
    }

    /** AbortIfError: with an error, answers with the error's status code
        and aborts; reports whether it did. */
    method AbortIfError(err: Option<Error>) returns (stopped: bool)
      modifies this`responses, this`aborted
      ensures stopped <==> err.Some?
      ensures err.None? ==> responses == old(responses) && aborted == old(aborted)
      ensures err.Some? ==>
        && responses == old(responses) + [ErrorJson(ApiErrors.StatusCodeForError(err.value), err.value)]
        && aborted
    {
      var decision := ApiErrors.AbortIfError(err);
      if decision.Aborted? {
        Respond(ErrorJson(decision.status, decision.err), true);
        return true;
      }
      return false;
    }
  }
}
