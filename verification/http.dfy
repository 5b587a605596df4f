/** The slice of the Fetch API both request handlers touch: the parsed request URL,
    a request reduced to its method, URL and parsed form, and a response reduced to its
    status, body and headers. */
module Http {
  import opened Options

  /** A parsed `URL`: the parts `toString()` puts back together. Hostnames reach the
      handler already lower-cased by the parser. */
  datatype Url = Url(
    protocol: string,
    hostname: string,
    port: string,
    pathname: string,
    search: string,
    hash: string)

  /** `url.toString()` for a URL without credentials. */
  function Href(u: Url): string {
    u.protocol + "//" + u.hostname + (if u.port == [] then "" else ":" + u.port)
      + u.pathname + u.search + u.hash
  }

  /** The `hostname` setter. For an http(s) URL the host parser refuses the empty host,
      and a refused assignment leaves the URL as it was. */
  function SetHostname(u: Url, h: string): (r: Url)
    ensures h != [] ==> r == u.(hostname := h)
    ensures h == [] ==> r == u
  {
    if h == [] then u else u.(hostname := h)
  }

  /** A text between a fixed prefix and a fixed suffix is determined by the whole. */
  lemma MiddleCancels(p: string, a: string, b: string, t: string)
    requires p + a + t == p + b + t
    ensures a == b
  {
    assert |a| == |b|;
    assert a == (p + a + t)[|p|..|p| + |a|];
    assert b == (p + b + t)[|p|..|p| + |b|];
  }

  /** Setting the hostname changes the serialised URL exactly when the new host is
      accepted and differs from the old one; the host sits right after `//`. */
  lemma SetHostnameChangesHref(u: Url, h: string)
    ensures Href(SetHostname(u, h)) == Href(u) <==> h == [] || h == u.hostname
    ensures h != [] ==> Href(SetHostname(u, h))[|u.protocol| + 2..|u.protocol| + 2 + |h|] == h
  {
    var p := u.protocol + "//";
    var t := (if u.port == [] then "" else ":" + u.port) + u.pathname + u.search + u.hash;
    assert Href(u) == p + u.hostname + t;
    if h != [] {
      var r := SetHostname(u, h);
      assert Href(r) == p + h + t;
      if Href(r) == Href(u) {
        MiddleCancels(p, h, u.hostname, t);
      }
      assert (p + h + t)[|p|..|p| + |h|] == h;
    }
  }

  /** The fields of a parsed multipart or url-encoded body; every value is text. */
  type Form = map<string, string>

  /** `form.get(name) || ""`: a missing field reads as the empty string. */
  function Field(form: Form, name: string): (v: string)
    ensures name in form ==> v == form[name]
    ensures name !in form ==> v == []
  {
    if name in form then form[name] else ""
  }

  /** A field reads blank exactly when it is missing or submitted empty, so a handler
      cannot tell those two apart; no other field affects what it reads. */
  lemma {:induction false} MissingFieldReadsBlank(form: Form, name: string, other: string, v: string)
    ensures Field(form, name) == [] <==> name !in form || form[name] == []
    ensures Field(form - {name}, name) == Field(form[name := []], name)
    ensures other != name ==> Field(form[other := v], name) == Field(form, name)
  {
  }

  /** `verb` is `request.method`; `form` is `None` when `request.formData()` rejects. */
  datatype Request = Request(verb: string, url: Url, form: Option<Form>)

  /** An object stored in the asset bucket; its bytes stay abstract. */
  datatype Obj = Obj(id: string, httpEtag: string)

  /** What a response carries: nothing (`null`), text, a bucket object's stream, or the
      static homepage document, whose text is not part of this model. */
  datatype Body = Null | Text(text: string) | Stream(obj: Obj) | HomepageDocument

  /** Header names are stored lower-case, as `Headers` normalises them. */
  datatype Response = Response(status: int, body: Body, headers: map<string, string>)

  /** The `Content-Type` a string body gets when the response is built without one. */
  const TextContentType: string := "text/plain;charset=UTF-8"

  /** The headers of `new Response(text, { status })`: only the implied content type. */
  const TextHeaders: map<string, string> := map["content-type" := TextContentType]

  /** `new Response(text, { status })`. */
  function TextResponse(status: int, text: string): (r: Response)
    ensures r.status == status && r.body == Text(text) && r.headers == TextHeaders
  {
    Response(status, Text(text), TextHeaders)
  }

  /** `Response.redirect(location, status)`: an empty body and a `location` header. */
  function Redirect(location: string, status: int): (r: Response)
    ensures r.status == status && r.body == Null
    ensures "location" in r.headers && r.headers["location"] == location
  {
    Response(status, Null, map["location" := location])
  }
}
