/**
  The request handler: routes a request by method and path to the
  controller, and turns the controller's answer into a status code and a
  JSON envelope `{data?, message?}`.

  The handler is a function of the store and the request: it returns the
  store after the request and the response written back. A request whose
  handling raises an exception nothing catches gets no response at all.
 */
module View {
  import opened Options
  import opened Json
  import opened Books
  import opened Database
  import opened Controller
  import opened Paths
  import opened IntText

  const BadPathMessage := "无效的请求路径"
  const NoResourceMessage := "未找到资源"
  const BadJsonMessage := "无效的JSON数据"

  /** The four methods the handler defines. */
  datatype Method = GET | POST | PUT | DELETE

  /**
    The `Content-Length` header: absent, a text `int` reads as `n`, or a
    text `int` refuses (its ValueError is not caught).
   */
  datatype ContentLength = NoLength | Length(n: int) | BadLength

  /**
    What the first `Content-Length` bytes of the body are: a JSON document,
    text that is not JSON, or bytes that are not UTF-8.
   */
  datatype Body = Document(value: Value) | NotJson | NotUtf8

  datatype Request = Request(verb: Method, path: string, length: ContentLength, body: Body)

  /** A status code with its JSON object body, or no response at all. */
  datatype Response = Reply(status: int, body: map<string, Value>) | NoReply

  /** The outcome of `_parse_request_body`. */
  datatype BodyResult = Payload(value: Value) | Undecodable | Aborted

  /**
    `_parse_request_body`: a missing or non-positive length gives the empty
    object without looking at the body; otherwise the body is decoded. Only
    a JSON decoding error is caught by the callers (Undecodable); a bad
    length or bad UTF-8 escapes them (Aborted).
   */
  function ParseBody(length: ContentLength, body: Body): (r: BodyResult)
    ensures length.NoLength? || (length.Length? && length.n <= 0) ==> r == Payload(Obj(map[]))
    ensures r.Undecodable? <==> length.Length? && length.n > 0 && body.NotJson?
    ensures r.Aborted? <==> length.BadLength? || (length.Length? && length.n > 0 && body.NotUtf8?)
    ensures length.Length? && length.n > 0 && body.Document? ==> r == Payload(body.value)
  {
    match length
    case BadLength => Aborted
    case NoLength => Payload(Obj(map[]))
    case Length(n) =>
      if n <= 0 then Payload(Obj(map[]))
      else
        match body
        case Document(v) => Payload(v)
        case NotJson => Undecodable
        case NotUtf8 => Aborted
  }

  /**
    `_send_response`: the envelope has a `data` key exactly when there is
    data and a `message` key exactly when there is a message.
   */
  function Send(status: int, data: Option<Value>, message: Option<string>): (r: Response)
    ensures r.Reply? && r.status == status
    ensures "data" in r.body <==> data.Some?
    ensures "message" in r.body <==> message.Some?
    ensures data.Some? ==> r.body["data"] == data.value
    ensures message.Some? ==> r.body["message"] == Str(message.value)
    ensures r.body.Keys <= {"data", "message"}
  {
    var withData := if data.Some? then map["data" := data.value] else map[];
    Reply(status, if message.Some? then withData["message" := Str(message.value)] else withData)
  }

  /** A failure: no data, only a message. */
  function Fail(status: int, message: string): Response
  {
    Send(status, None, Some(message))
  }

  /** The JSON list of book dicts. */
  function BookList(dicts: seq<map<string, Value>>): (v: Value)
    ensures v.Arr? && |v.items| == |dicts|
    ensures forall i :: 0 <= i < |dicts| ==> v.items[i] == Obj(dicts[i])
  {
    Arr(seq(|dicts|, i requires 0 <= i < |dicts| => Obj(dicts[i])))
  }

  /** A failure response: a non-empty message and no data. */
  predicate FailureEnvelope(r: Response)
  {
    r.Reply? && r.body.Keys == {"message"} && r.body["message"].Str? && |r.body["message"].s| > 0
  }

  /** A success response with a result: data and no message. */
  predicate DataEnvelope(r: Response)
  {
    r.Reply? && r.body.Keys == {"data"}
  }

  /** The controller's error for an identifier it cannot serve. */
  function IdError(id: string): string
  {
    if ParseInt(id).None? then InvalidIdMessage else NotFoundMessage
  }

  /** The path names an identifier that parses and whose book is stored. */
  predicate Found(s: Store, rawPath: string)
  {
    && PathId(rawPath).Some?
    && ParseInt(PathId(rawPath).value).Some?
    && IntKey(ParseInt(PathId(rawPath).value).value) in s.books
  }

  /**
    `do_GET` on an identifier found in the path: the stored book's dict form
    with 200, or the controller's error with 404.
   */
  function ShowId(s: Store, id: string): (r: Response)
    ensures r.Reply? && r.status in {200, 404}
    ensures r.status == 200 <==> ParseInt(id).Some? && IntKey(ParseInt(id).value) in s.books
    ensures r.status == 200 ==> DataEnvelope(r) && r.body["data"] == Obj(ToDict(s.books[IntKey(ParseInt(id).value)]))
    ensures r.status == 404 ==> FailureEnvelope(r) && r.body["message"] == Str(IdError(id))
  {
    var out := GetBook(s, id);
    if out.Done? then Send(200, Some(Obj(out.value)), None)
    else Fail(404, out.message)
  }

  /** The `/books/<id>` branch of `do_GET`. */
  function ShowBook(s: Store, rawPath: string): (r: Response)
    ensures r.Reply? && r.status in {200, 400, 404}
    ensures r.status == 200 <==> Found(s, rawPath)
    ensures r.status == 400 <==> PathId(rawPath).None?
    ensures r.status == 200 ==> DataEnvelope(r)
    ensures r.status == 200 ==> r.body["data"] == Obj(ToDict(s.books[IntKey(ParseInt(PathId(rawPath).value).value)]))
    ensures r.status != 200 ==> FailureEnvelope(r)
    ensures r.status == 400 ==> r.body["message"] == Str(BadPathMessage)
    ensures r.status == 404 ==> r.body["message"] == Str(IdError(PathId(rawPath).value))
  {
    match PathId(rawPath)
    case None => Fail(400, BadPathMessage)
    case Some(id) => ShowId(s, id)
  }

  /**
    `do_GET`, which looks only at the parsed path: `/books` lists every book
    (an empty list is still data), `/books/<id>` shows one book or reports
    the controller's error as 404, `/books/` without an identifier is 400,
    and any other path 404.
   */
  function DoGet(s: Store, rawPath: string): (r: Response)
    requires WellFormed(s)
    ensures r.Reply? && r.status in {200, 400, 404}
    ensures UrlPath(rawPath) == "/books" ==> r == Send(200, Some(BookList(GetAllBooks(s))), None)
    ensures r.status == 200 <==>
      UrlPath(rawPath) == "/books" || (StartsWith(UrlPath(rawPath), "/books/") && Found(s, rawPath))
    ensures r.status == 400 <==> StartsWith(UrlPath(rawPath), "/books/") && PathId(rawPath).None?
    ensures r.status == 200 ==> DataEnvelope(r)
    ensures r.status == 200 && UrlPath(rawPath) != "/books" ==>
      r.body["data"] == Obj(ToDict(s.books[IntKey(ParseInt(PathId(rawPath).value).value)]))
    ensures r.status != 200 ==> FailureEnvelope(r)
    ensures r.status == 400 ==> r.body["message"] == Str(BadPathMessage)
    ensures UrlPath(rawPath) != "/books" && !StartsWith(UrlPath(rawPath), "/books/") ==>
      r == Fail(404, NoResourceMessage)
    ensures r.status == 404 && StartsWith(UrlPath(rawPath), "/books/") ==>
      r.body["message"] == Str(IdError(PathId(rawPath).value))
  {
    var path := UrlPath(rawPath);
    if path == "/books" then Send(200, Some(BookList(GetAllBooks(s))), None)
    else if StartsWith(path, "/books/") then ShowBook(s, rawPath)
    else Fail(404, NoResourceMessage)
  }

  /**
    `do_POST`, which compares the raw path with `/books`: 201 with the new
    book, 400 on an undecodable body or a create failure, 404 on any other
    path; an escaping body error gives no response.
   */
  function DoPost(s: Store, req: Request): (r: (Store, Response))
    requires WellFormed(s)
    ensures WellFormed(r.0)
    ensures req.path != "/books" ==> r == (s, Fail(404, NoResourceMessage))
    ensures r.1.Reply? && r.1.status == 404 <==> req.path != "/books"
    ensures r.1.Reply? && r.1.status == 400 <==>
      && req.path == "/books"
      && (|| ParseBody(req.length, req.body).Undecodable?
          || (&& ParseBody(req.length, req.body).Payload?
              && (!ParseBody(req.length, req.body).value.Obj?
                  || UnhashableId(ParseBody(req.length, req.body).value.fields))))
    ensures r.1.NoReply? <==> req.path == "/books" && ParseBody(req.length, req.body).Aborted?
    ensures r.1.Reply? ==> r.1.status in {201, 400, 404}
    ensures r.1.Reply? && r.1.status == 201 <==>
      && req.path == "/books"
      && ParseBody(req.length, req.body).Payload?
      && ParseBody(req.length, req.body).value.Obj?
      && !UnhashableId(ParseBody(req.length, req.body).value.fields)
    ensures r.1.Reply? && r.1.status == 201 ==> DataEnvelope(r.1)
    ensures r.1.Reply? && r.1.status == 201 ==>
      var created := CreateBook(s, ParseBody(req.length, req.body).value);
      && r.0 == created.0
      && r.1.body["data"] == Obj(created.1.value)
    ensures r.1.Reply? && r.1.status != 201 ==> FailureEnvelope(r.1) && r.0 == s
    ensures r.1.Reply? && r.1.status == 400 ==>
      r.1.body["message"] ==
        Str(if ParseBody(req.length, req.body).Undecodable? then BadJsonMessage else CreateFailedMessage)
    ensures r.1.NoReply? ==> r.0 == s
    ensures Valid(s) ==> Valid(r.0)
    ensures r.0.nextId != s.nextId ==>
      && r.0.nextId == s.nextId + 1
      && r.1.Reply? && r.1.status == 201
      && r.1.body["data"].Obj? && "id" in r.1.body["data"].fields
      && r.1.body["data"].fields["id"] == Num(s.nextId)
  {
    if req.path != "/books" then (s, Fail(404, NoResourceMessage))
    else
      match ParseBody(req.length, req.body)
      case Aborted => (s, NoReply)
      case Undecodable => (s, Fail(400, BadJsonMessage))
      case Payload(v) =>
        var (s', out) := CreateBook(s, v);
        match out
        case Done(d) => (s', Send(201, Some(Obj(d)), None))
        case Failed(m) => (s', Fail(400, m))
        case Raised => (s', NoReply)
  }

  /** The part of `do_PUT` after an identifier was found in the path. */
  function PutBook(s: Store, id: string, req: Request): (r: (Store, Response))
    requires WellFormed(s)
    ensures WellFormed(r.0)
    ensures r.1.Reply? ==> r.1.status in {200, 400, 404}
    ensures r.1.Reply? && r.1.status == 200 <==>
      && ParseInt(id).Some? && IntKey(ParseInt(id).value) in s.books
      && ParseBody(req.length, req.body).Payload?
      && ParseBody(req.length, req.body).value.Obj?
    ensures r.1.Reply? && r.1.status == 400 <==> ParseBody(req.length, req.body).Undecodable?
    ensures r.1.NoReply? <==>
      || ParseBody(req.length, req.body).Aborted?
      || (&& ParseBody(req.length, req.body).Payload?
          && !ParseBody(req.length, req.body).value.Obj?
          && ParseInt(id).Some?)
    ensures r.1.Reply? && r.1.status == 200 ==> DataEnvelope(r.1)
    ensures r.1.Reply? && r.1.status == 200 ==>
      var updated := UpdateBook(s, id, ParseBody(req.length, req.body).value);
      && r.0 == updated.0
      && r.1.body["data"] == Obj(updated.1.value)
    ensures r.1.Reply? && r.1.status != 200 ==> FailureEnvelope(r.1)
    ensures r.1.Reply? && r.1.status == 400 ==> r.1.body["message"] == Str(BadJsonMessage)
    ensures r.1.Reply? && r.1.status == 404 ==> r.1.body["message"] == Str(IdError(id))
    ensures !(r.1.Reply? && r.1.status == 200) ==> r.0 == s
    ensures Valid(s) ==> Valid(r.0)
    ensures r.0.nextId == s.nextId
  {
    match ParseBody(req.length, req.body)
    case Aborted => (s, NoReply)
    case Undecodable => (s, Fail(400, BadJsonMessage))
    case Payload(v) =>
      var (s', out) := UpdateBook(s, id, v);
      match out
      case Done(d) => (s', Send(200, Some(Obj(d)), None))
      case Failed(m) => (s', Fail(404, m))
      case Raised => (s', NoReply)
  }

  /**
    `do_PUT`: the raw path must start with `/books/` (else 404) and name an
    identifier (else 400); the body is read only then, an undecodable one
    giving 400. Every controller failure is 404. A non-object payload under
    a well-formed identifier raises and gives no response.
   */
  function DoPut(s: Store, req: Request): (r: (Store, Response))
    requires WellFormed(s)
    ensures WellFormed(r.0)
    ensures !StartsWith(req.path, "/books/") ==> r == (s, Fail(404, NoResourceMessage))
    ensures r.1.Reply? ==> r.1.status in {200, 400, 404}
    ensures r.1.Reply? && r.1.status == 200 <==>
      && StartsWith(req.path, "/books/")
      && Found(s, req.path)
      && ParseBody(req.length, req.body).Payload?
      && ParseBody(req.length, req.body).value.Obj?
    ensures r.1.Reply? && r.1.status == 400 <==>
      && StartsWith(req.path, "/books/")
      && (PathId(req.path).None? || ParseBody(req.length, req.body).Undecodable?)
    ensures r.1.NoReply? <==>
      && StartsWith(req.path, "/books/")
      && PathId(req.path).Some?
      && (|| ParseBody(req.length, req.body).Aborted?
          || (&& ParseBody(req.length, req.body).Payload?
              && !ParseBody(req.length, req.body).value.Obj?
              && ParseInt(PathId(req.path).value).Some?))
    ensures r.1.Reply? && r.1.status == 200 ==> DataEnvelope(r.1)
    ensures r.1.Reply? && r.1.status == 200 ==>
      var updated := UpdateBook(s, PathId(req.path).value, ParseBody(req.length, req.body).value);
      && r.0 == updated.0
      && r.1.body["data"] == Obj(updated.1.value)
    ensures r.1.Reply? && r.1.status != 200 ==> FailureEnvelope(r.1)
    ensures StartsWith(req.path, "/books/") && PathId(req.path).None? ==> r == (s, Fail(400, BadPathMessage))
    ensures r.1.Reply? && r.1.status == 400 && PathId(req.path).Some? ==> r.1.body["message"] == Str(BadJsonMessage)
    ensures r.1.Reply? && r.1.status == 404 && StartsWith(req.path, "/books/") ==>
      r.1.body["message"] == Str(IdError(PathId(req.path).value))
    ensures !(r.1.Reply? && r.1.status == 200) ==> r.0 == s
    ensures Valid(s) ==> Valid(r.0)
    ensures r.0.nextId == s.nextId
  {
    if !StartsWith(req.path, "/books/") then (s, Fail(404, NoResourceMessage))
    else
      match PathId(req.path)
      case None => (s, Fail(400, BadPathMessage))
      case Some(id) => PutBook(s, id, req)
  }

  /**
    `do_DELETE` on an identifier found in the path: 204 with the empty
    envelope once the controller removed the book, or its error with 404.
   */
  function RemoveId(s: Store, id: string): (r: (Store, Response))
    requires WellFormed(s)
    ensures WellFormed(r.0)
    ensures r.1.Reply? && r.1.status in {204, 404}
    ensures r.1.status == 204 <==> ParseInt(id).Some? && IntKey(ParseInt(id).value) in s.books
    ensures r.1.status == 204 ==>
      && r.1.body == map[]
      && r.0 == DeleteBook(s, id).0
      && r.0.books == s.books - {IntKey(ParseInt(id).value)}
    ensures r.1.status == 404 ==> FailureEnvelope(r.1) && r.0 == s
    ensures r.1.status == 404 ==> r.1.body["message"] == Str(IdError(id))
    ensures Valid(s) ==> Valid(r.0)
    ensures r.0.nextId == s.nextId
  {
    var (s', out) := DeleteBook(s, id);
    if out.Done? then (s', Send(204, None, None))
    else (s', Fail(404, out.message))
  }

  /**
    `do_DELETE`: the raw path must start with `/books/` (else 404) and name
    an identifier (else 400); success is 204 with the empty envelope `{}`,
    every controller failure 404.
   */
  function DoDelete(s: Store, req: Request): (r: (Store, Response))
    requires WellFormed(s)
    ensures WellFormed(r.0)
    ensures !StartsWith(req.path, "/books/") ==> r == (s, Fail(404, NoResourceMessage))
    ensures r.1.Reply? && r.1.status in {204, 400, 404}
    ensures r.1.status == 204 <==> StartsWith(req.path, "/books/") && Found(s, req.path)
    ensures r.1.status == 400 <==> StartsWith(req.path, "/books/") && PathId(req.path).None?
    ensures r.1.status == 204 ==> r.1.body == map[]
    ensures r.1.status == 204 ==>
      && r.0 == DeleteBook(s, PathId(req.path).value).0
      && r.0.books == s.books - {IntKey(ParseInt(PathId(req.path).value).value)}
    ensures r.1.status != 204 ==> FailureEnvelope(r.1) && r.0 == s
    ensures StartsWith(req.path, "/books/") && PathId(req.path).None? ==> r == (s, Fail(400, BadPathMessage))
    ensures r.1.status == 404 && StartsWith(req.path, "/books/") ==>
      r.1.body["message"] == Str(IdError(PathId(req.path).value))
    ensures Valid(s) ==> Valid(r.0)
    ensures r.0.nextId == s.nextId
  {
    if !StartsWith(req.path, "/books/") then (s, Fail(404, NoResourceMessage))
    else
      match PathId(req.path)
      case None => (s, Fail(400, BadPathMessage))
      case Some(id) => RemoveId(s, id)
  }

  /**
    One request against the store: the store afterwards and the response.
    Statuses are 200, 201, 204, 400 or 404; every failure carries a message
    and no data and leaves the store as it was; only GET, and every request
    that gets no response, leave it alone too.
   */
  function Dispatch(s: Store, req: Request): (r: (Store, Response))
    requires WellFormed(s)
    ensures WellFormed(r.0)
    ensures r.1.Reply? ==> r.1.status in {200, 201, 204, 400, 404}
    ensures r.1.Reply? && r.1.status >= 400 ==> FailureEnvelope(r.1)
    ensures r.1.Reply? && (r.1.status == 200 || r.1.status == 201) ==> DataEnvelope(r.1)
    ensures r.1.Reply? && r.1.status == 204 ==> r.1.body == map[]
    ensures req.verb == GET ==> r.0 == s
    ensures req.verb == POST ==> (r.1.Reply? && r.1.status == 404 <==> req.path != "/books")
    ensures r.1.NoReply? || r.1.status >= 400 ==> r.0 == s
    ensures Valid(s) ==> Valid(r.0)
    ensures r.0.nextId != s.nextId ==>
      && req.verb == POST
      && r.0.nextId == s.nextId + 1
      && r.1.Reply? && r.1.status == 201
      && r.1.body["data"].Obj? && "id" in r.1.body["data"].fields
      && r.1.body["data"].fields["id"] == Num(s.nextId)
  {
    match req.verb
    case GET => (s, DoGet(s, req.path))
    case POST => DoPost(s, req)
    case PUT => DoPut(s, req)
    case DELETE => DoDelete(s, req)
  }
}
