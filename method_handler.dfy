/**
 * The API route wrapper (web/summerjob/lib/api/method_handler.ts): a request goes to
 * the handler registered for its method (GET, POST, PATCH, DELETE, section 9.3 of
 * RFC 9110) or gets 405 Method Not Allowed (section 15.5.6 of RFC 9110); an error
 * thrown by the handler becomes a JSON error with 500 or 400.
 *
 * What a handler does is a parameter: the writes it makes, and whether it then
 * completes or throws.
 */
module MethodHandler {
  import opened Wrappers

  datatype ApiError = ApiDbError | ApiBadRequestError | ApiInternalServerError

  /** A call on the response object. */
  datatype Write = SetStatus(code: int) | SetHeader(name: string, value: string) | Json(error: ApiError) | End

  /** The errors `handle` tells apart. */
  datatype ErrorKind = PrismaClientInitializationError | PrismaClientKnownRequestError | OtherError

  /** What awaiting a handler amounts to. */
  datatype Outcome = Completes(writes: seq<Write>) | Throws(writes: seq<Write>, error: ErrorKind)

  /** The optional handlers given to `http_method_handler`. */
  datatype Handlers = Handlers(get: Option<Outcome>, post: Option<Outcome>, patch: Option<Outcome>, del: Option<Outcome>)

  /** `NextApiResponse`, as the list of calls made on it. */
  class Response {
    var log: seq<Write>

    constructor ()
      ensures log == []
    {
      log := [];
    }

    /** `res.status(code)` */
    method Status(code: int)
      modifies this
      ensures log == old(log) + [SetStatus(code)]
    {
      log := log + [SetStatus(code)];
    }

    /** `res.json({ error })` */
    method SendJson(error: ApiError)
      modifies this
      ensures log == old(log) + [Json(error)]
    {
      log := log + [Json(error)];
    }

    /** `res.end()` */
    method Finish()
      modifies this
      ensures log == old(log) + [End]
    {
      log := log + [End];
    }

    /** The handler's own calls on the response. */
    method Replay(writes: seq<Write>)
      modifies this
      ensures log == old(log) + writes
    {
      log := log + writes;
    }
  }

  /** The status code and error body `handle` sends for an error. */
  function ErrorResponse(e: ErrorKind): (r: (int, ApiError))
    ensures e == PrismaClientKnownRequestError ==> r.0 == 400
    ensures e != PrismaClientKnownRequestError ==> r.0 == 500
  {
    match e
    case PrismaClientInitializationError => (500, ApiDbError)
    case PrismaClientKnownRequestError => (400, ApiBadRequestError)
    case OtherError => (500, ApiInternalServerError)
  }

  /** The calls on the response while `handle(func, req, res)` runs. */
  function HandleLog(o: Outcome): seq<Write> {
    match o
    case Completes(writes) => writes
    case Throws(writes, e) => writes + [SetStatus(ErrorResponse(e).0), Json(ErrorResponse(e).1)]
  }

  /** `handle(func, req, res)` */
  method Handle(func: Outcome, res: Response)
    modifies res
    ensures res.log == old(res.log) + HandleLog(func)
  {
    res.Replay(func.writes);
    if func.Throws? {
      match func.error
      case PrismaClientInitializationError =>
        res.Status(500);
        res.SendJson(ApiDbError);
      case PrismaClientKnownRequestError =>
        res.Status(400);
        res.SendJson(ApiBadRequestError);
      case OtherError =>
        res.Status(500);
        res.SendJson(ApiInternalServerError);
    }
  }

  /** The handler registered for a method, looked up by the `switch`. */
  function HandlerFor(h: Handlers, httpMethod: string): Option<Outcome> {
    match httpMethod
    case "GET" => h.get
    case "POST" => h.post
    case "PATCH" => h.patch
    case "DELETE" => h.del
    case _ => None
  }

  predicate IsDispatched(httpMethod: string) {
    httpMethod in {"GET", "POST", "PATCH", "DELETE"}
  }

  const MethodNotAllowed: seq<Write> := [SetStatus(405), End]

  /** The calls on the response for one request. */
  function DispatchLog(h: Handlers, httpMethod: string): seq<Write> {
    match HandlerFor(h, httpMethod)
    case Some(o) => HandleLog(o)
    case None => if IsDispatched(httpMethod) then MethodNotAllowed else MethodNotAllowed + MethodNotAllowed
  }

  /** The function `http_method_handler(handlers)` returns, applied to one request. */
  method HttpMethodHandler(h: Handlers, httpMethod: string, res: Response) returns (invoked: Option<Outcome>)
    modifies res
    ensures invoked == HandlerFor(h, httpMethod)
    ensures res.log == old(res.log) + DispatchLog(h, httpMethod)
  {
    invoked := None;
    match httpMethod {
      case "GET" =>
        if h.get.Some? {
          invoked := h.get;
          Handle(h.get.value, res);
          return;
        }
      case "POST" =>
        if h.post.Some? {
          invoked := h.post;
          Handle(h.post.value, res);
          return;
        }
      case "PATCH" =>
        if h.patch.Some? {
          invoked := h.patch;
          Handle(h.patch.value, res);
          return;
        }
      case "DELETE" =>
        if h.del.Some? {
          invoked := h.del;
          Handle(h.del.value, res);
          return;
        }
      case _ =>
        res.Status(405);
        res.Finish();
    }
    res.Status(405);
    res.Finish();
  }

  /** The status the client receives: the last one set. */
  function FinalStatus(log: seq<Write>): (r: Option<int>)
    ensures r.Some? <==> exists i :: 0 <= i < |log| && log[i].SetStatus?
    ensures r.Some? ==> exists i :: 0 <= i < |log| && log[i] == SetStatus(r.value)
                          && forall j :: i < j < |log| ==> !log[j].SetStatus?
  {
    if log == [] then None
    else if log[|log| - 1].SetStatus? then Some(log[|log| - 1].code)
    else FinalStatus(log[..|log| - 1])
  }

  lemma {:induction false} FinalStatusAppend(a: seq<Write>, b: seq<Write>)
    ensures FinalStatus(a + b) == if FinalStatus(b).Some? then FinalStatus(b) else FinalStatus(a)
    decreases |b|
  {
    if b != [] {
      assert (a + b)[..|a + b| - 1] == a + b[..|b| - 1];
      assert (a + b)[|a + b| - 1] == b[|b| - 1];
      FinalStatusAppend(a, b[..|b| - 1]);
    } else {
      assert a + b == a;
    }
  }

  /**
   * With the handler for the method given, only that handler acts: the dispatcher adds
   * no call of its own, and `handle` adds none when the handler completes.
   */
  lemma HandledRequest(h: Handlers, httpMethod: string)
    requires HandlerFor(h, httpMethod).Some?
    ensures IsDispatched(httpMethod)
    ensures DispatchLog(h, httpMethod) == HandleLog(HandlerFor(h, httpMethod).value)
    ensures HandlerFor(h, httpMethod).value.Completes? ==>
      DispatchLog(h, httpMethod) == HandlerFor(h, httpMethod).value.writes
  {
  }

  /**
   * Without a handler the request ends with 405; for a method the switch does not know,
   * 405 is written twice. No `Allow` header is sent with it.
   */
  lemma NotAllowed(h: Handlers, httpMethod: string)
    requires HandlerFor(h, httpMethod).None?
    ensures FinalStatus(DispatchLog(h, httpMethod)) == Some(405)
    ensures IsDispatched(httpMethod) ==> DispatchLog(h, httpMethod) == [SetStatus(405), End]
    ensures !IsDispatched(httpMethod) ==> DispatchLog(h, httpMethod) == [SetStatus(405), End, SetStatus(405), End]
    ensures forall i :: 0 <= i < |DispatchLog(h, httpMethod)| ==> !DispatchLog(h, httpMethod)[i].SetHeader?
  {
    var l := DispatchLog(h, httpMethod);
    assert l[..|l| - 1][|l| - 2] == SetStatus(405);
  }

  /** Method names are case-sensitive: a lower-case `get` is refused even with a GET handler. */
  lemma MethodIsCaseSensitive(h: Handlers)
    ensures DispatchLog(h, "get") == MethodNotAllowed + MethodNotAllowed
  {
  }

  /**
   * A thrown error always ends with the status of its kind, whatever the handler wrote
   * before: 500 for a database connection error, 400 for a known request error and 500
   * for anything else, followed by the matching error body.
   */
  lemma ErrorStatus(writes: seq<Write>, e: ErrorKind)
    ensures FinalStatus(HandleLog(Throws(writes, e))) == Some(ErrorResponse(e).0)
    ensures HandleLog(Throws(writes, e))[|writes| + 1] == Json(ErrorResponse(e).1)
  {
    var tail := [SetStatus(ErrorResponse(e).0), Json(ErrorResponse(e).1)];
    FinalStatusAppend(writes, tail);
    assert tail[..1] == [SetStatus(ErrorResponse(e).0)];
  }
}
