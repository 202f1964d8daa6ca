/**
 * The responses the web server builds: the index page, the error page with
 * its plain-text fallback, and the handler that turns "not found" into that
 * error page.
 *
 * The template engine is a value holding a render function; what a template
 * makes of its context is outside the model, only which template is asked
 * for, with which bindings, and what the handler does with the outcome.
 */
module Responses {
  import opened Outcomes
  import opened Projects
  import opened ProjectStore

  // ---------------------------------------------------------------------
  // Status codes

  /** An HTTP status code as the web framework holds it: three decimal digits. */
  type StatusCode = code: nat | 100 <= code <= 999 witness 200

  const OK: StatusCode := 200
  const NOT_FOUND: StatusCode := 404
  const INTERNAL_SERVER_ERROR: StatusCode := 500

  function DigitChar(d: nat): (c: char)
    requires d < 10
    ensures '0' <= c <= '9'
  {
    (('0' as int) + d) as char
  }

  /** The status code as text, three decimal digits. */
  function StatusText(code: StatusCode): (s: string)
    ensures |s| == 3
    ensures forall i :: 0 <= i < 3 ==> '0' <= s[i] <= '9'
  {
    [DigitChar(code / 10 / 10), DigitChar(code / 10 % 10), DigitChar(code % 10)]
  }

  /** The value of three decimal digits. */
  function DigitsValue(s: string): (n: nat)
    requires |s| == 3 && forall i :: 0 <= i < 3 ==> '0' <= s[i] <= '9'
    ensures n <= 999
  {
    100 * (s[0] as int - '0' as int) + 10 * (s[1] as int - '0' as int) + (s[2] as int - '0' as int)
  }

  /** Reads three decimal digits back as a status code. */
  function ParseStatus(s: string): (r: Option<StatusCode>)
    ensures r.Some? ==> |s| == 3
  {
    if |s| == 3 && (forall i :: 0 <= i < 3 ==> '0' <= s[i] <= '9') && 100 <= DigitsValue(s) then
      Some(DigitsValue(s))
    else None
  }

  lemma DivModTen(n: nat, q: nat, r: nat)
    requires r < 10 && n == 10 * q + r
    ensures n / 10 == q && n % 10 == r
  {
  }

  /** The status text reads back as the same code. */
  lemma StatusTextParses(code: StatusCode)
    ensures ParseStatus(StatusText(code)) == Some(code)
  {
    var t := StatusText(code);
    var q := code / 10;
    assert code == 10 * q + code % 10;
    assert q == 10 * (q / 10) + q % 10;
    assert DigitsValue(t) == 100 * (q / 10) + 10 * (q % 10) + code % 10;
  }

  /** Only a code's own text reads back as that code. */
  lemma ParsedStatusIsText(code: StatusCode, s: string)
    requires ParseStatus(s) == Some(code)
    ensures s == StatusText(code)
  {
    var d0, d1, d2 := s[0] as int - '0' as int, s[1] as int - '0' as int, s[2] as int - '0' as int;
    assert code == 10 * (10 * d0 + d1) + d2;
    DivModTen(code, 10 * d0 + d1, d2);
    DivModTen(10 * d0 + d1, d0, d1);
    var t := StatusText(code);
    assert t[0] == s[0] && t[1] == s[1] && t[2] == s[2];
  }

  /** The status text names the code: reading it back gives the same code,
      and a code is read only from its own text. */
  lemma StatusTextRoundTrip(code: StatusCode, s: string)
    ensures ParseStatus(StatusText(code)) == Some(code)
    ensures ParseStatus(s) == Some(code) <==> s == StatusText(code)
  {
    StatusTextParses(code);
    if ParseStatus(s) == Some(code) {
      ParsedStatusIsText(code, s);
    }
  }

  lemma NotFoundText()
    ensures StatusText(NOT_FOUND) == "404"
  {
  }

  // ---------------------------------------------------------------------
  // Responses and template contexts

  const TEXT_HTML := "text/html"
  const TEXT_PLAIN := "text/plain"
  /** The content type the framework gives to the response of an internal-server-error value. */
  const TEXT_PLAIN_UTF8 := "text/plain; charset=utf-8"

  datatype Response = Response(status: StatusCode, contentType: string, body: string)

  /** A value bound in a template context. */
  datatype ContextValue = Text(text: string) | ProjectList(projects: seq<Project>)

  /** Bindings from template variable name to value. */
  type Context = map<string, ContextValue>

  /** Why the template engine could not render; its details are not modelled. */
  datatype RenderError = RenderError(reason: string)

  /** The templates loaded at startup, shared read-only by every request. */
  datatype TemplateEngine = TemplateEngine(render: (string, Context) -> Result<string, RenderError>)

  /** Binding a name in a context replaces any earlier binding of it. */
  function Insert(ctx: Context, name: string, value: ContextValue): (r: Context)
    ensures r.Keys == ctx.Keys + {name}
    ensures r[name] == value
    ensures forall other :: other in ctx && other != name ==> r[other] == ctx[other]
  {
    ctx[name := value]
  }

  /** The context of the error page: the message and the status code as text. */
  function ErrorContext(error: string, status: StatusCode): (r: Context)
    ensures r.Keys == {"error", "status_code"}
    ensures r["error"] == Text(error)
    ensures r["status_code"] == Text(StatusText(status))
  {
    Insert(Insert(map[], "error", Text(error)), "status_code", Text(StatusText(status)))
  }

  /** A response the handlers of the application passed on: its status and
      the template engine its request can reach, if any. */
  datatype ServiceResponse = ServiceResponse(status: StatusCode, engine: Option<TemplateEngine>)

  // ---------------------------------------------------------------------
  // Error pages

  /** The plain-text fallback: the message alone. */
  function Fallback(status: StatusCode, error: string): (r: Response)
    ensures r.status == status && r.contentType == TEXT_PLAIN && r.body == error
  {
    Response(status, TEXT_PLAIN, error)
  }

  /** The error page for `res`: the rendered "error.html" as HTML when an
      engine is reachable and renders it, otherwise the message as plain
      text; the status is that of `res` either way. */
  function ErrorResponse(res: ServiceResponse, error: string): (r: Response)
    ensures r.status == res.status
    ensures r.contentType == TEXT_HTML <==> res.engine.Some? && res.engine.value.render("error.html", ErrorContext(error, res.status)).Success?
    ensures r.contentType == TEXT_HTML ==> r.body == res.engine.value.render("error.html", ErrorContext(error, res.status)).value
    ensures r.contentType != TEXT_HTML ==> r == Fallback(res.status, error)
  {
    if res.engine.Some? then
      var context := ErrorContext(error, res.status);
      var body := res.engine.value.render("error.html", context);
      match body
      case Success(html) => Response(res.status, TEXT_HTML, html)
      case Failure(_) => Fallback(res.status, error)
    else
      Fallback(res.status, error)
  }

  const PAGE_NOT_FOUND := "Page not found"

  /** The "not found" handler: the error page for the message "Page not found". */
  function NotFound(res: ServiceResponse): (r: Response)
    ensures r.status == res.status
    ensures r.contentType == TEXT_HTML || (r.contentType == TEXT_PLAIN && r.body == PAGE_NOT_FOUND)
    ensures r.contentType == TEXT_HTML <==>
      res.engine.Some? && res.engine.value.render("error.html", ErrorContext(PAGE_NOT_FOUND, res.status)).Success?
    ensures r.contentType == TEXT_HTML ==>
      res.engine.value.render("error.html", ErrorContext(PAGE_NOT_FOUND, res.status)) == Success(r.body)
  {
    ErrorResponse(res, PAGE_NOT_FOUND)
  }

  /** The error handlers of the application: a "not found" response is
      replaced by the error page; every other response goes out as it was. */
  function HandleErrors(res: ServiceResponse, original: Response): (r: Response)
    requires original.status == res.status
    ensures r.status == res.status
    ensures res.status != NOT_FOUND ==> r == original
    ensures res.status == NOT_FOUND ==> r == NotFound(res)
  {
    if res.status == NOT_FOUND then NotFound(res) else original
  }

  /** For a missing page, the error page is given the message "Page not found"
      and the status text "404"; without a working template the client reads
      exactly "Page not found" as plain text, with status 404. */
  lemma NotFoundPage(res: ServiceResponse, original: Response)
    requires res.status == NOT_FOUND && original.status == NOT_FOUND
    ensures var ctx := ErrorContext(PAGE_NOT_FOUND, res.status);
      ctx["error"] == Text("Page not found") && ctx["status_code"] == Text("404")
    ensures var r := HandleErrors(res, original);
      && r.status == 404
      && (res.engine.None? || res.engine.value.render("error.html", ErrorContext(PAGE_NOT_FOUND, res.status)).Failure? ==>
            r == Response(404, "text/plain", "Page not found"))
  {
    NotFoundText();
  }

  // ---------------------------------------------------------------------
  // The index page

  const TEMPLATE_ERROR := "Template error"

  /** What became of an index request: a response, or the handler aborted
      because the project list could not be loaded. */
  datatype HandlerOutcome = Reply(response: Response) | Aborted(reason: LoadError)

  /** The index handler: load the project list, bind it as `projects` and
      render "index.html"; 200 with the HTML on success, 500 "Template error"
      when rendering fails. */
  function Index(file: FileRead, parse: string -> Option<seq<Entry>>, engine: TemplateEngine): (r: HandlerOutcome)
    ensures r.Aborted? <==> LoadProjects(file, parse).Failure?
    ensures r.Aborted? ==> r.reason == LoadProjects(file, parse).error
    ensures r.Reply? ==>
      var rendered := engine.render("index.html", map["projects" := ProjectList(LoadProjects(file, parse).value)]);
      && (rendered.Success? ==> r.response == Response(OK, TEXT_HTML, rendered.value))
      && (rendered.Failure? ==> r.response == Response(INTERNAL_SERVER_ERROR, TEXT_PLAIN_UTF8, TEMPLATE_ERROR))
  {
    match LoadProjects(file, parse)
    case Failure(e) => Aborted(e)
    case Success(projects) =>
      var ctx := Insert(map[], "projects", ProjectList(projects));
      match engine.render("index.html", ctx)
      case Success(s) => Reply(Response(OK, TEXT_HTML, s))
      case Failure(_) => Reply(Response(INTERNAL_SERVER_ERROR, TEXT_PLAIN_UTF8, TEMPLATE_ERROR))
  }

  /** The index page is rendered from the whole project list, in homepage
      order: one project per map entry, ascending by rank, ties in reverse
      iteration order; and it is a 200 only when rendering succeeds. */
  lemma IndexRendersHomepageOrder(text: string, parse: string -> Option<seq<Entry>>, engine: TemplateEngine, m: map<string, Project>)
    requires parse(text).Some? && IsIterationOf(parse(text).value, m)
    ensures var r := Index(Read(text), parse, engine);
      && r.Reply?
      && (r.response.status == OK || r.response.status == INTERNAL_SERVER_ERROR)
      && (r.response.status == OK <==>
            exists listed :: && ListedInHomepageOrder(Values(parse(text).value), listed)
                             && |listed| == |m|
                             && (forall p :: p in listed <==> p in m.Values)
                             && engine.render("index.html", map["projects" := ProjectList(listed)]) == Success(r.response.body))
  {
    LoadedListFromMap(text, parse, m);
    var listed := LoadProjects(Read(text), parse).value;
    assert ListedInHomepageOrder(Values(parse(text).value), listed);
  }
}
