/** The handler that serves the single-page homepage (src/index.ts): every GET or HEAD
    answers with the page, and POST /contact runs a validating contact endpoint that
    sends no mail. */
module Homepage {
  import opened Options
  import opened Strings
  import opened Http
  import opened ContactForm
  import StaticSite

  const PageType: string := "text/html; charset=utf-8"
  const PageCache: string := "public, max-age=60"

  /** The two headers of every page response. */
  const OkHeaders: map<string, string> := map["content-type" := PageType, "cache-control" := PageCache]

  const Incomplete: string := "Please complete all fields correctly."

  /** `String(form.get("hp_field") || "").trim()` is non-empty. */
  predicate HoneypotFilled(form: Form) {
    Trimmed(form, "hp_field") != []
  }

  /** `handleContact(request)`: 400 for a body that is not a form; a filled honeypot is
      thanked without looking further; otherwise the form is validated and either thanked
      or refused with 422. Nothing is sent. */
  function HandleContact(form: Option<Form>): (r: Response)
    ensures r.headers == TextHeaders
    ensures r.status == 400 <==> form.None?
    ensures r.status == 422 <==> form.Some? && !HoneypotFilled(form.value) && !Acceptable(form.value)
    ensures r.status == 200 <==> form.Some? && (HoneypotFilled(form.value) || Acceptable(form.value))
    ensures r.body == Text(if r.status == 200 then Thanks else Incomplete)
  {
    match form
    case None => TextResponse(400, Incomplete)
    case Some(f) =>
      if HoneypotFilled(f) then TextResponse(200, Thanks)
      else if Trimmed(f, "name") == [] || Trimmed(f, "message") == [] || !MatchesEmailPattern(Trimmed(f, "email")) then
        TextResponse(422, Incomplete)
      else TextResponse(200, Thanks)
  }

  predicate IsContactPost(req: Request) {
    req.verb == "POST" && req.url.pathname == "/contact"
  }

  /** The handler's `fetch`. */
  function Fetch(req: Request): (r: Response)
    ensures IsContactPost(req) ==> r == HandleContact(req.form)
    ensures req.verb == "GET" ==> r == Response(200, HomepageDocument, OkHeaders)
    ensures req.verb == "HEAD" ==> r == Response(200, Null, OkHeaders)
    ensures r.status == 404 <==> !IsContactPost(req) && req.verb != "GET" && req.verb != "HEAD"
    ensures r.status == 404 ==> r == TextResponse(404, "Not found")
  {
    if IsContactPost(req) then HandleContact(req.form)
    else if req.verb == "GET" || req.verb == "HEAD" then
      if req.verb == "HEAD" then Response(200, Null, OkHeaders)
      else Response(200, HomepageDocument, OkHeaders)
    else TextResponse(404, "Not found")
  }

  /** Every path serves the page: two GET requests get the same answer whatever their
      URLs. */
  lemma GetIgnoresPath(req1: Request, req2: Request)
    requires req1.verb == "GET" && req2.verb == "GET"
    ensures Fetch(req1) == Fetch(req2)
    ensures Fetch(req1).body == HomepageDocument && Fetch(req1).headers == OkHeaders
  {
  }

  /** A HEAD request gets the status and headers a GET of the same URL gets, without the
      body, as section 9.3.2 of RFC 9110 asks. */
  lemma HeadIsGetWithoutBody(req: Request)
    requires req.verb == "HEAD"
    ensures var get := Fetch(req.(verb := "GET"));
            && Fetch(req).status == get.status
            && Fetch(req).headers == get.headers
            && Fetch(req).body == Null && get.body != Null
  {
    assert !IsContactPost(req);
  }

  /** A filled honeypot decides the answer alone: the other fields are not looked at. */
  lemma HoneypotIgnoresFields(f1: Form, f2: Form)
    requires HoneypotFilled(f1) && HoneypotFilled(f2)
    ensures HandleContact(Some(f1)) == HandleContact(Some(f2)) == TextResponse(200, Thanks)
  {
  }

  /** With no honeypot value at all, the homepage refuses exactly the forms the static-site
      worker refuses, whatever the mail relay answers there. */
  lemma SameRefusalsAsWorker(form: Form, relay: StaticSite.RelayAnswer)
    requires Field(form, "hp_field") == []
    ensures HandleContact(Some(form)).status == 422
            <==> StaticSite.HandleContact(Some(form), relay).response.status == 422
  {
    TrimEmptyIffAllSpace([]);
  }

  /** A honeypot of white space only divides the two handlers: the worker tests it before
      trimming and answers "OK", the homepage trims it away and validates the rest. */
  lemma BlankHoneypotDividesHandlers(form: Form, relay: StaticSite.RelayAnswer)
    requires Field(form, "hp_field") != [] && AllSpace(Field(form, "hp_field"))
    requires !Acceptable(form)
    ensures StaticSite.HandleContact(Some(form), relay).response == TextResponse(200, "OK")
    ensures HandleContact(Some(form)).status == 422
  {
    TrimEmptyIffAllSpace(Field(form, "hp_field"));
  }
}
