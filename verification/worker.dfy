/** The static-site worker (src/worker.ts): the www-to-apex redirect, the contact form
    endpoint, and static files served from an object bucket, with the content type and
    caching policy chosen from the key's extension. The bucket is a map from object key
    to object; the mail relay's answer is a parameter. */
module StaticSite {
  import opened Options
  import opened Strings
  import opened Http
  import opened Paths
  import opened ContactForm

  /** `Env`: the asset bucket and the key prefix the site lives under. */
  datatype Env = Env(assets: map<string, Obj>, bucketPrefix: string)

  const ShortCache: string := "public, max-age=60, must-revalidate"
  const LongCache: string := "public, max-age=31536000, immutable"

  /** The media types the worker can answer with. */
  datatype MediaType =
    | Html | Css | JavaScript | Json | Svg | Png | Jpeg | Webp | Icon | PlainText | Xml
    | Woff | Woff2 | OctetStream

  /** The `Content-Type` value of each media type. */
  function MediaTypeText(m: MediaType): string {
    match m
    case Html => "text/html; charset=utf-8"
    case Css => "text/css; charset=utf-8"
    case JavaScript => "application/javascript; charset=utf-8"
    case Json => "application/json; charset=utf-8"
    case Svg => "image/svg+xml"
    case Png => "image/png"
    case Jpeg => "image/jpeg"
    case Webp => "image/webp"
    case Icon => "image/x-icon"
    case PlainText => "text/plain; charset=utf-8"
    case Xml => "application/xml; charset=utf-8"
    case Woff => "font/woff"
    case Woff2 => "font/woff2"
    case OctetStream => "application/octet-stream"
  }

  /** The extensions the table lists. */
  const TableExtensions: set<string> :=
    {".html", ".css", ".js", ".mjs", ".json", ".svg", ".png", ".jpg", ".jpeg", ".webp", ".ico",
     ".txt", ".xml", ".woff", ".woff2"}

  /** `TYPES[ext] || "application/octet-stream"`: the table of fifteen extensions, and
      the default for any other string. An extension always starts with a dot, so no
      inherited property of the object literal can be hit. */
  function ContentType(ext: string): (m: MediaType)
    ensures m == OctetStream <==> ext !in TableExtensions
  {
    if ext == ".html" then Html
    else if ext == ".css" then Css
    else if ext == ".js" || ext == ".mjs" then JavaScript
    else if ext == ".json" then Json
    else if ext == ".svg" then Svg
    else if ext == ".png" then Png
    else if ext == ".jpg" || ext == ".jpeg" then Jpeg
    else if ext == ".webp" then Webp
    else if ext == ".ico" then Icon
    else if ext == ".txt" then PlainText
    else if ext == ".xml" then Xml
    else if ext == ".woff" then Woff
    else if ext == ".woff2" then Woff2
    else OctetStream
  }

  /** The caching policy: short and revalidated when the type mentions `text/html`, a
      year and immutable otherwise. */
  function CacheControl(contentType: string): (r: string)
    ensures r == ShortCache || r == LongCache
    ensures r == ShortCache <==> Includes(contentType, "text/html")
  {
    CachePoliciesDiffer();
    if Includes(contentType, "text/html") then ShortCache else LongCache
  }

  /** The two policies differ (they have the same length). */
  lemma CachePoliciesDiffer()
    ensures ShortCache != LongCache
  {
    assert ShortCache[16] != LongCache[16];
  }

  /** The XML type holds every letter of `text/html`, but its only slash is not four
      places after a `t` followed by an `e`. */
  lemma XmlTypeOmitsHtml()
    ensures !Includes(MediaTypeText(Xml), "text/html")
  {
    var t, k := MediaTypeText(Xml), "text/html";
    assert forall x :: 0 <= x < |t| && t[x] == '/' ==> x == 11;
    assert t[8] != k[1];
    forall i | 0 <= i <= |t| - |k| ensures !OccursAt(t, k, i) {
      if OccursAt(t, k, i) {
        OccursAtChar(t, k, i, 4);
        OccursAtChar(t, k, i, 1);
      }
    }
  }

  /** The textual types other than HTML and XML have no `m`. */
  lemma TextTypesOmitHtml(m: MediaType)
    requires m.Css? || m.JavaScript? || m.Json? || m.PlainText?
    ensures !Includes(MediaTypeText(m), "text/html")
  {
    LacksCharNotIncluded(MediaTypeText(m), "text/html", 7);
  }

  /** The image, font and binary types have no `h`. */
  lemma BinaryTypesOmitHtml(m: MediaType)
    requires !(m.Html? || m.Xml? || m.Css? || m.JavaScript? || m.Json? || m.PlainText?)
    ensures !Includes(MediaTypeText(m), "text/html")
  {
    LacksCharNotIncluded(MediaTypeText(m), "text/html", 5);
  }

  /** Of all the types, only the HTML one mentions `text/html`. */
  lemma OnlyHtmlMentionsHtml(m: MediaType)
    ensures Includes(MediaTypeText(m), "text/html") <==> m == Html
  {
    if m == Html {
      assert OccursAt(MediaTypeText(m), "text/html", 0);
    } else if m == Xml {
      XmlTypeOmitsHtml();
    } else if m.Css? || m.JavaScript? || m.Json? || m.PlainText? {
      TextTypesOmitHtml(m);
    } else {
      BinaryTypesOmitHtml(m);
    }
  }

  /** A key without an extension falls through the table. */
  lemma NoExtensionIsOctetStream()
    ensures ContentType([]) == OctetStream
  {
  }

  /** A `Content-Type` value names the HTML type exactly when it is the HTML one. */
  lemma HtmlTextOnlyForHtml(m: MediaType)
    ensures MediaTypeText(m) == MediaTypeText(Html) <==> m == Html
  {
    OnlyHtmlMentionsHtml(m);
    OnlyHtmlMentionsHtml(Html);
  }

  /** The only extension whose type mentions `text/html` is `.html`, so that is the only
      one served with the short caching policy. */
  lemma HtmlTypeIffHtmlExtension(ext: string)
    ensures ContentType(ext) == Html <==> ext == ".html"
    ensures Includes(MediaTypeText(ContentType(ext)), "text/html") <==> ext == ".html"
    ensures CacheControl(MediaTypeText(ContentType(ext))) == ShortCache <==> ext == ".html"
  {
    OnlyHtmlMentionsHtml(ContentType(ext));
    CachePoliciesDiffer();
  }

  /** The object key a request key is looked up under. */
  function BucketKey(env: Env, key: string): string {
    Join(env.bucketPrefix, key)
  }

  const IndexKey: string := "/index.html"

  /** Which key, if any, the response is served from: the requested key when the bucket
      holds it; otherwise `/index.html`, but only for a key without an extension and
      only when the bucket holds it. */
  function ServedKey(env: Env, key: string): (r: Option<string>)
    ensures r.Some? ==> BucketKey(env, r.value) in env.assets
    ensures r == Some(key) <==> BucketKey(env, key) in env.assets
    ensures r.None? <==> BucketKey(env, key) !in env.assets
                         && (Ext(key) != [] || BucketKey(env, IndexKey) !in env.assets)
    ensures r.Some? && r.value != key ==> r.value == IndexKey && Ext(key) == []
  {
    if BucketKey(env, key) in env.assets then Some(key)
    else if Ext(key) == [] && BucketKey(env, IndexKey) in env.assets then Some(IndexKey)
    else None
  }

  function NotFound(): (r: Response)
    ensures r.status == 404 && r.body == Text("Not found")
  {
    TextResponse(404, "Not found")
  }

  /** The headers an object is served with: its content type, the cache policy for that
      type, and its entity tag. */
  function ObjectHeaders(m: MediaType, obj: Obj): (h: map<string, string>)
    ensures "content-type" in h && h["content-type"] == MediaTypeText(m)
    ensures "cache-control" in h && h["cache-control"] == CacheControl(MediaTypeText(m))
    ensures "etag" in h && h["etag"] == obj.httpEtag
  {
    map["content-type" := MediaTypeText(m), "cache-control" := CacheControl(MediaTypeText(m)),
        "etag" := obj.httpEtag]
  }

  /** The response for a normalised key as the worker writes it: the content type comes
      from the extension of the requested key even when the fallback document is
      served. */
  function ServeAsWritten(env: Env, key: string): (r: Response)
    ensures ServedKey(env, key).None? ==> r == NotFound()
    ensures ServedKey(env, key).Some? ==>
              && r.status == 200
              && r.body == Stream(env.assets[BucketKey(env, ServedKey(env, key).value)])
              && "content-type" in r.headers && "cache-control" in r.headers
              && r.headers["content-type"] == MediaTypeText(ContentType(Ext(key)))
              && r.headers["cache-control"] == CacheControl(r.headers["content-type"])
              && "etag" in r.headers
              && r.headers["etag"] == env.assets[BucketKey(env, ServedKey(env, key).value)].httpEtag
  {
    match ServedKey(env, key)
    case None => NotFound()
    case Some(served) =>
      var obj := env.assets[BucketKey(env, served)];
      Response(200, Stream(obj), ObjectHeaders(ContentType(Ext(key)), obj))
  }

  /** The response for a normalised key, with the content type taken from the key that is
      actually served. */
  function Serve(env: Env, key: string): (r: Response)
    ensures ServedKey(env, key).None? ==> r == NotFound()
    ensures ServedKey(env, key).Some? ==>
              && r.status == 200
              && r.body == Stream(env.assets[BucketKey(env, ServedKey(env, key).value)])
              && "content-type" in r.headers && "cache-control" in r.headers && "etag" in r.headers
              && r.headers["content-type"] == MediaTypeText(ContentType(Ext(ServedKey(env, key).value)))
              && r.headers["cache-control"] == CacheControl(r.headers["content-type"])
              && r.headers["etag"] == env.assets[BucketKey(env, ServedKey(env, key).value)].httpEtag
  {
    match ServedKey(env, key)
    case None => NotFound()
    case Some(served) =>
      var obj := env.assets[BucketKey(env, served)];
      Response(200, Stream(obj), ObjectHeaders(ContentType(Ext(served)), obj))
  }

  lemma ExtOfIndexKey()
    ensures Ext(IndexKey) == ".html"
  {
    var p := IndexKey;
    assert ExtensionAt(p, 6) by {
      assert p[6] == '.';
      assert forall j :: 6 < j < |p| ==> AsciiAlnum(p[j]);
    }
    assert p[6..] == ".html";
    assert forall j :: 0 <= j < 5 ==> LowerChar(".html"[j]) == ".html"[j];
    assert Lower(p[6..]) == ".html";
  }

  /** A served object is cached briefly exactly when it is served as HTML, and that is
      exactly when the served key ends in `.html`. */
  lemma ServeCachePolicy(env: Env, key: string)
    requires ServedKey(env, key).Some?
    ensures var r := Serve(env, key);
            var served := ServedKey(env, key).value;
            && (r.headers["cache-control"] == ShortCache <==> Ext(served) == ".html")
            && (r.headers["content-type"] == MediaTypeText(Html) <==> Ext(served) == ".html")
  {
    var served := ServedKey(env, key).value;
    var r := Serve(env, key);
    var m := ContentType(Ext(served));
    assert r.headers["content-type"] == MediaTypeText(m);
    assert r.headers["cache-control"] == CacheControl(MediaTypeText(m));
    HtmlTypeIffHtmlExtension(Ext(served));
    HtmlTextOnlyForHtml(m);
  }

  /** The fallback document is served as HTML with the short caching policy. */
  lemma FallbackServedAsHtml(env: Env, key: string)
    requires BucketKey(env, key) !in env.assets
    requires Ext(key) == [] && BucketKey(env, IndexKey) in env.assets
    ensures Serve(env, key).status == 200
    ensures Serve(env, key).body == Stream(env.assets[BucketKey(env, IndexKey)])
    ensures Serve(env, key).headers["content-type"] == MediaTypeText(Html)
    ensures Serve(env, key).headers["cache-control"] == ShortCache
  {
    ExtOfIndexKey();
    HtmlTypeIffHtmlExtension(".html");
  }

  /** As written, the fallback document goes out as `application/octet-stream` with the
      one-year immutable policy, since the requested key has no extension. */
  lemma AsWrittenFallbackIsOctetStream(env: Env, key: string)
    requires BucketKey(env, key) !in env.assets
    requires Ext(key) == [] && BucketKey(env, IndexKey) in env.assets
    ensures ServeAsWritten(env, key).status == 200
    ensures ServeAsWritten(env, key).body == Stream(env.assets[BucketKey(env, IndexKey)])
    ensures ServeAsWritten(env, key).headers["content-type"] == MediaTypeText(OctetStream)
    ensures ServeAsWritten(env, key).headers["cache-control"] == LongCache
  {
    var r := ServeAsWritten(env, key);
    assert ServedKey(env, key) == Some(IndexKey);
    assert r.headers["content-type"] == MediaTypeText(ContentType([]));
    NoExtensionIsOctetStream();
    OnlyHtmlMentionsHtml(OctetStream);
    assert CacheControl(MediaTypeText(OctetStream)) == LongCache;
  }

  // ---------------------------------------------------------------------------------
  // The contact form endpoint

  /** What the mail relay answers: success, or a failure whose response text is given. */
  datatype RelayAnswer = Delivered | Failed(text: string)

  /** The message handed to the relay: reply-to address, sender name and plain text. */
  datatype Mail = Mail(replyTo: string, name: string, text: string)

  /** A response, and the mail sent on the way, if any. */
  datatype Handled = Handled(response: Response, mail: Option<Mail>)

  const SendFailed: string := "Could not send email. Try again later.\n"

  /** `handleContact(req)`. The honeypot is tested before trimming: any non-empty value
      ends the request with "OK". Mail is attempted only for an acceptable form, and the
      relay's answer decides between 200 and 500. */
  function HandleContact(form: Option<Form>, relay: RelayAnswer): (h: Handled)
    ensures form.None? ==> h == Handled(TextResponse(400, "Bad Request"), None)
    ensures form.Some? && Field(form.value, "hp_field") != [] ==> h == Handled(TextResponse(200, "OK"), None)
    ensures h.response.status == 422 <==>
              form.Some? && Field(form.value, "hp_field") == [] && !Acceptable(form.value)
    ensures h.mail.Some? <==> form.Some? && Field(form.value, "hp_field") == [] && Acceptable(form.value)
    ensures h.mail.Some? ==>
              var f := form.value;
              && h.mail.value.replyTo == Trimmed(f, "email")
              && h.mail.value.name == Trimmed(f, "name")
              && h.mail.value.text == "Name: " + Trimmed(f, "name") + "\nEmail: " + Trimmed(f, "email")
                                      + "\n\n" + Trimmed(f, "message")
              && h.response == (match relay
                                case Delivered => TextResponse(200, Thanks)
                                case Failed(t) => TextResponse(500, SendFailed + t))
  {
    match form
    case None => Handled(TextResponse(400, "Bad Request"), None)
    case Some(f) =>
      if Field(f, "hp_field") != [] then Handled(TextResponse(200, "OK"), None)
      else
        var name, email, message := Trimmed(f, "name"), Trimmed(f, "email"), Trimmed(f, "message");
        if name == [] || message == [] || !MatchesEmailPattern(email) then
          Handled(TextResponse(422, "Please fill out all fields correctly."), None)
        else
          var mail := Mail(email, name, "Name: " + name + "\nEmail: " + email + "\n\n" + message);
          match relay
          case Delivered => Handled(TextResponse(200, Thanks), Some(mail))
          case Failed(t) => Handled(TextResponse(500, SendFailed + t), Some(mail))
  }

  // ---------------------------------------------------------------------------------
  // Routing

  const WwwPrefix: string := "www."

  /** The redirect for a `www.` host: the URL with that one prefix removed from the
      hostname, with status 301. */
  function WwwRedirect(u: Url): (r: Response)
    requires StartsWith(u.hostname, WwwPrefix)
    ensures r.status == 301 && r.body == Null && "location" in r.headers
    ensures r.headers["location"] == Href(SetHostname(u, u.hostname[|WwwPrefix|..]))
  {
    Redirect(Href(SetHostname(u, u.hostname[|WwwPrefix|..])), 301)
  }

  /** The worker's `fetch`, as written: bucket keys are answered by `ServeAsWritten`. */
  function Fetch(req: Request, env: Env, relay: RelayAnswer): (h: Handled)
    ensures StartsWith(req.url.hostname, WwwPrefix) ==> h == Handled(WwwRedirect(req.url), None)
    ensures !StartsWith(req.url.hostname, WwwPrefix) && req.verb == "POST" && req.url.pathname == "/contact" ==>
              h == HandleContact(req.form, relay)
    ensures h.mail.Some? ==> req.verb == "POST" && req.url.pathname == "/contact"
    ensures !StartsWith(req.url.hostname, WwwPrefix) && !(req.verb == "POST" && req.url.pathname == "/contact") ==>
              && h.mail.None?
              && (Includes(req.url.pathname, "..") ==> h.response == NotFound())
              && (!Includes(req.url.pathname, "..") ==>
                    h.response == ServeAsWritten(env, NormaliseKey(req.url.pathname).value))
  {
    if StartsWith(req.url.hostname, WwwPrefix) then Handled(WwwRedirect(req.url), None)
    else if req.verb == "POST" && req.url.pathname == "/contact" then HandleContact(req.form, relay)
    else
      match NormaliseKey(req.url.pathname)
      case None => Handled(NotFound(), None)
      case Some(key) => Handled(ServeAsWritten(env, key), None)
  }

  /** `fetch` with the fallback document typed by the key actually served. */
  function FetchCorrected(req: Request, env: Env, relay: RelayAnswer): (h: Handled)
    ensures StartsWith(req.url.hostname, WwwPrefix) ==> h == Handled(WwwRedirect(req.url), None)
    ensures !StartsWith(req.url.hostname, WwwPrefix) && req.verb == "POST" && req.url.pathname == "/contact" ==>
              h == HandleContact(req.form, relay)
    ensures h.mail.Some? ==> req.verb == "POST" && req.url.pathname == "/contact"
    ensures !StartsWith(req.url.hostname, WwwPrefix) && !(req.verb == "POST" && req.url.pathname == "/contact") ==>
              && h.mail.None?
              && (Includes(req.url.pathname, "..") ==> h.response == NotFound())
              && (!Includes(req.url.pathname, "..") ==> h.response == Serve(env, NormaliseKey(req.url.pathname).value))
  {
    if StartsWith(req.url.hostname, WwwPrefix) then Handled(WwwRedirect(req.url), None)
    else if req.verb == "POST" && req.url.pathname == "/contact" then HandleContact(req.form, relay)
    else
      match NormaliseKey(req.url.pathname)
      case None => Handled(NotFound(), None)
      case Some(key) => Handled(Serve(env, key), None)
  }

  /** The two responses for a key differ at most in their headers, and only when the
      fallback document stands in for a missing key. */
  lemma ServeDiffersOnlyForFallback(env: Env, key: string)
    ensures Serve(env, key).status == ServeAsWritten(env, key).status
    ensures Serve(env, key).body == ServeAsWritten(env, key).body
    ensures Serve(env, key) != ServeAsWritten(env, key) ==>
              BucketKey(env, key) !in env.assets && ServedKey(env, key) == Some(IndexKey)
  {
  }

  /** The corrected `fetch` answers with the same status, body and mail as the worker as
      written; the two differ only when a path is answered with the fallback document. */
  lemma FetchCorrectedDiffersOnlyForFallback(req: Request, env: Env, relay: RelayAnswer)
    ensures FetchCorrected(req, env, relay).response.status == Fetch(req, env, relay).response.status
    ensures FetchCorrected(req, env, relay).response.body == Fetch(req, env, relay).response.body
    ensures FetchCorrected(req, env, relay).mail == Fetch(req, env, relay).mail
    ensures FetchCorrected(req, env, relay) != Fetch(req, env, relay) ==>
              var key := NormaliseKey(req.url.pathname);
              && key.Some?
              && BucketKey(env, key.value) !in env.assets
              && ServedKey(env, key.value) == Some(IndexKey)
  {
    match NormaliseKey(req.url.pathname)
    case None =>
    case Some(key) => ServeDiffersOnlyForFallback(env, key);
  }

  /** The path `/contact` holds no `..`. */
  lemma ContactPathHasNoDotDot()
    ensures !Includes("/contact", "..")
  {
    LacksCharNotIncluded("/contact", "..", 0);
  }

  /** A path with `..` is refused before the bucket is consulted, whatever the method:
      the answer is the same whatever the bucket holds. */
  lemma DotDotIgnoresBucket(req: Request, env1: Env, env2: Env, relay: RelayAnswer)
    requires !StartsWith(req.url.hostname, WwwPrefix)
    requires Includes(req.url.pathname, "..")
    ensures Fetch(req, env1, relay) == Fetch(req, env2, relay) == Handled(NotFound(), None)
  {
    ContactPathHasNoDotDot();
  }

  /** The redirect takes precedence over everything, the contact endpoint included; for a
      host with something after `www.` it points at that apex host. */
  lemma WwwRedirectToApex(req: Request, env: Env, relay: RelayAnswer, apex: string)
    requires req.url.hostname == WwwPrefix + apex && apex != []
    ensures Fetch(req, env, relay).response.status == 301
    ensures Fetch(req, env, relay).response.headers["location"] == Href(req.url.(hostname := apex))
    ensures Fetch(req, env, relay).mail.None?
  {
    assert StartsWith(req.url.hostname, WwwPrefix);
    assert req.url.hostname[|WwwPrefix|..] == apex;
  }

  /** The host `www.` leaves nothing once the prefix is removed; the hostname setter
      refuses the empty host, so the redirect points back at the very same URL. */
  lemma BareWwwRedirectsToItself(req: Request, env: Env, relay: RelayAnswer)
    requires req.url.hostname == WwwPrefix
    ensures Fetch(req, env, relay).response.status == 301
    ensures Fetch(req, env, relay).response.headers["location"] == Href(req.url)
  {
    assert StartsWith(req.url.hostname, WwwPrefix);
  }
}
