/**
 * `download_tiktok_video` of downloader.py, against the ssstik.io resolver:
 * fetch the landing page, extract the `s_tt` token, POST the video URL with
 * the HTMX header set, then choose the download target: HD first (anchor,
 * `tt` input, a successful HD request, an `hx-redirect` header), else the
 * `without_watermark` anchor, else a `download_link` anchor whose text
 * mentions "Without watermark", else give up.
 *
 * The HTTP session is the function `server` (a failed request, including a
 * non-2xx status, is `Failed`); BeautifulSoup is `parse`, which gives the
 * results of the three plain `find` calls and, for the `string=` search, the
 * `download_link` candidates, which `FindMentioning` filters here.
 */
module Ssstik {
  import opened Wrappers
  import opened Text
  import opened Patterns

  const LandingUrl := "https://ssstik.io/en"
  const SubmitUrl := "https://ssstik.io/abc?url=dl"
  const Origin := "https://ssstik.io"
  const StandardName := "tiktok_video.mp4"
  const HdName := "tiktok_video_hd.mp4"
  const WatermarkPhrase := "Without watermark"

  /** The browser-like headers every request starts from. */
  const BaseHeaders: map<string, string> := map[
    "User-Agent" := "Mozilla/5.0 (Windows NT 10.0; Win64; x64) AppleWebKit/537.36 (KHTML, like Gecko) Chrome/91.0.4472.124 Safari/537.36",
    "Accept" := "*/*"]

  /** The HTMX partial-update, Origin, Referer and Content-Type headers the resolver expects. */
  const HtmxHeaders: map<string, string> := map[
    "hx-current-url" := "https://ssstik.io/en",
    "hx-request" := "true",
    "hx-target" := "target",
    "hx-trigger" := "_gcaptcha_pt",
    "Origin" := "https://ssstik.io",
    "Referer" := "https://ssstik.io/en",
    "Content-Type" := "application/x-www-form-urlencoded; charset=UTF-8"]

  /**
   * `headers.copy()` followed by `.update(HtmxHeaders)`: the fixed set wins,
   * every other base header is kept, and nothing else is added.
   */
  function PostHeaders(base: map<string, string>): (h: map<string, string>)
    ensures h.Keys == base.Keys + HtmxHeaders.Keys
    ensures forall k :: k in HtmxHeaders ==> h[k] == HtmxHeaders[k]
    ensures forall k :: k in base && k !in HtmxHeaders ==> h[k] == base[k]
  {
    base + HtmxHeaders
  }

  /** A request the session sends; form values that are None are what `requests` drops. */
  datatype Request =
    | Get(url: string, headers: map<string, string>)
    | Post(url: string, headers: map<string, string>, form: map<string, Option<string>>)

  /** An answer: `Failed` is an exception or a non-2xx status; header names are lower case. */
  datatype Response = Failed | Ok(text: string, headers: map<string, string>)

  /** An element `find` returned: its attributes and its `.string`. */
  datatype Tag = Tag(attrs: map<string, string>, text: Option<string>) {
    /** `tag.get(name)`. */
    function Get(name: string): Option<string> {
      if name in attrs then Some(attrs[name]) else None
    }
  }

  /** The parsed submission response, as the script queries it. */
  datatype Soup = Soup(
    hdAnchor: Option<Tag>,       // find("a", class_="without_watermark_hd")
    ttInput: Option<Tag>,        // find("input", {"name": "tt"})
    watermarkFree: Option<Tag>,  // find("a", class_="without_watermark")
    downloadLinks: seq<Tag>)     // the a.download_link elements, in document order

  /** The `string=` filter: `"Without watermark" in text if text else False`. */
  predicate MentionsPhrase(t: Tag) {
    t.text.Some? && t.text.value != "" && Contains(t.text.value, WatermarkPhrase)
  }

  /** The first of `tags[i..]` the filter accepts. */
  function FirstMentioning(tags: seq<Tag>, i: nat): (r: Option<nat>)
    requires i <= |tags|
    ensures r.Some? ==> i <= r.value < |tags| && MentionsPhrase(tags[r.value])
    ensures forall k :: i <= k < |tags| && (r.None? || k < r.value) ==> !MentionsPhrase(tags[k])
    decreases |tags| - i
  {
    if i == |tags| then None
    else if MentionsPhrase(tags[i]) then Some(i)
    else FirstMentioning(tags, i + 1)
  }

  /** `find("a", class_="download_link", string=...)`. */
  function FindMentioning(tags: seq<Tag>): (r: Option<Tag>)
    ensures r.Some? ==>
      exists i :: 0 <= i < |tags| && r.value == tags[i] && MentionsPhrase(tags[i])
        && forall j :: 0 <= j < i ==> !MentionsPhrase(tags[j])
    ensures r.None? <==> forall t :: t in tags ==> !MentionsPhrase(t)
  {
    match FirstMentioning(tags, 0)
    case None => None
    case Some(i) => Some(tags[i])
  }

  /**
   * The standard-quality anchor: the `without_watermark` anchor when there
   * is one, otherwise the first `download_link` anchor mentioning the phrase.
   */
  function StandardTag(soup: Soup): (r: Option<Tag>)
    ensures soup.watermarkFree.Some? ==> r == soup.watermarkFree
    ensures soup.watermarkFree.None? && r.Some? ==>
      exists i :: 0 <= i < |soup.downloadLinks| && r.value == soup.downloadLinks[i] && MentionsPhrase(soup.downloadLinks[i])
        && forall j :: 0 <= j < i ==> !MentionsPhrase(soup.downloadLinks[j])
    ensures r.None? <==> soup.watermarkFree.None? && forall t :: t in soup.downloadLinks ==> !MentionsPhrase(t)
  {
    if soup.watermarkFree.Some? then soup.watermarkFree else FindMentioning(soup.downloadLinks)
  }

  /** What the HD step did. */
  datatype Escalation =
    | NotTried                                      // no HD anchor or no `tt` input
    | DirectUrlMissing                              // `"https://ssstik.io" + None` raises outside the try
    | Tried(request: Request, redirect: Option<string>)  // the HD request and its `hx-redirect` header, if any

  /** The HD step: anchor and `tt` input needed; the request carries only `tt`. */
  function Escalate(soup: Soup, postHeaders: map<string, string>, server: Request -> Response): (r: Escalation)
    ensures r.NotTried? <==> soup.hdAnchor.None? || soup.ttInput.None?
    ensures r.DirectUrlMissing? <==>
      soup.hdAnchor.Some? && soup.ttInput.Some? && soup.hdAnchor.value.Get("data-directurl").None?
    ensures r.Tried? ==> r.request.Post? && r.request.headers == postHeaders && r.request.form.Keys == {"tt"}
    ensures r.Tried? ==>
      var answer := server(r.request);
      r.redirect == if answer.Ok? && "hx-redirect" in answer.headers then Some(answer.headers["hx-redirect"]) else None
  {
    if soup.hdAnchor.None? || soup.ttInput.None? then NotTried
    else
      match soup.hdAnchor.value.Get("data-directurl")
      case None => DirectUrlMissing
      case Some(direct) =>
        var request := Post(Origin + direct, postHeaders, map["tt" := soup.ttInput.value.Get("value")]);
        var redirect :=
          match server(request)
          case Failed => None
          case Ok(_, headers) => if "hx-redirect" in headers then Some(headers["hx-redirect"]) else None;
        Tried(request, redirect)
  }

  /** How an attempt ends. `Fetch` is the final streaming GET (URL, file name, headers). */
  datatype Outcome =
    | NoUrl
    | LandingFailed
    | TokenMissing
    | SubmitFailed
    | HdCrash
    | LinkMissing
    | Fetch(url: Option<string>, filename: string, headers: map<string, string>)

  /** The outcome together with the requests sent, in order. */
  datatype Attempt = Attempt(outcome: Outcome, sent: seq<Request>)

  /** The choice of download target once the HD step is done. */
  function Select(soup: Soup, esc: Escalation): (o: Outcome)
    ensures o == HdCrash <==> esc == DirectUrlMissing
    ensures o.Fetch? ==> o.headers == BaseHeaders
    ensures esc.Tried? && esc.redirect.Some? && esc.redirect.value != "" ==> o == Fetch(esc.redirect, HdName, BaseHeaders)
    ensures (esc.NotTried? || (esc.Tried? && esc.redirect.None?)) ==>
      o == match StandardTag(soup) case None => LinkMissing case Some(t) => Fetch(t.Get("href"), StandardName, BaseHeaders)
    ensures esc.Tried? && esc.redirect == Some("") ==>
      o == match StandardTag(soup) case None => LinkMissing case Some(t) => Fetch(t.Get("href"), HdName, BaseHeaders)
  {
    if esc.DirectUrlMissing? then HdCrash
    else
      var hdUrl := if esc.Tried? then esc.redirect else None;
      var filename := if hdUrl.Some? then HdName else StandardName;
      if hdUrl.Some? && hdUrl.value != "" then Fetch(hdUrl, filename, BaseHeaders)
      else
        match StandardTag(soup)
        case None => LinkMissing
        case Some(t) => Fetch(t.Get("href"), filename, BaseHeaders)
  }

  /** The submission form: exactly the video URL, the locale and the token. */
  function SubmitForm(url: string, token: string): map<string, Option<string>> {
    map["id" := Some(url), "locale" := Some("en"), "tt" := Some(token)]
  }

  /** The expected run of `download_tiktok_video(url)`. */
  function Resolve(url: Option<string>, server: Request -> Response, parse: string -> Soup): (a: Attempt)
    ensures url.None? || url.value == "" ==> a == Attempt(NoUrl, [])
    ensures a.outcome == TokenMissing ==> a.sent == [Get(LandingUrl, BaseHeaders)]
    ensures a.outcome.Fetch? ==> a.outcome.headers == BaseHeaders && 2 <= |a.sent| <= 3
    ensures |a.sent| <= 3
  {
    if url.None? || url.value == "" then Attempt(NoUrl, [])
    else
      var landing := Get(LandingUrl, BaseHeaders);
      match server(landing)
      case Failed => Attempt(LandingFailed, [landing])
      case Ok(page, _) =>
        match Search(SessionTokenPattern, page)
        case None => Attempt(TokenMissing, [landing])
        case Some(token) =>
          var submit := Post(SubmitUrl, PostHeaders(BaseHeaders), SubmitForm(url.value, token));
          match server(submit)
          case Failed => Attempt(SubmitFailed, [landing, submit])
          case Ok(body, _) =>
            var soup := parse(body);
            var esc := Escalate(soup, PostHeaders(BaseHeaders), server);
            Attempt(Select(soup, esc), [landing, submit] + (if esc.Tried? then [esc.request] else []))
  }

  /**
   * Once the token is found, the second request is the submission POST: to
   * the fixed endpoint, with the HTMX headers, carrying the leftmost `s_tt`
   * capture of the landing page.
   */
  lemma SubmitCarriesLeftmostToken(url: string, server: Request -> Response, parse: string -> Soup, page: string)
    requires url != ""
    requires server(Get(LandingUrl, BaseHeaders)).Ok? && server(Get(LandingUrl, BaseHeaders)).text == page
    requires Search(SessionTokenPattern, page).Some?
    ensures var a := Resolve(Some(url), server, parse);
      |a.sent| >= 2 && a.sent[1] == Post(SubmitUrl, PostHeaders(BaseHeaders), SubmitForm(url, Search(SessionTokenPattern, page).value))
    ensures LeftmostCapture(SessionTokenPattern, page, Search(SessionTokenPattern, page).value)
  {
    PatternsWellFormed();
    SearchSound(SessionTokenPattern, page);
  }

  /** No `s_tt` assignment anywhere in the landing page: only the landing GET is sent. */
  lemma NoTokenNoPost(url: string, server: Request -> Response, parse: string -> Soup)
    requires url != ""
    requires server(Get(LandingUrl, BaseHeaders)).Ok?
    requires forall i :: 0 <= i <= |server(Get(LandingUrl, BaseHeaders)).text| ==>
      !AnyMatchAt(SessionTokenPattern, server(Get(LandingUrl, BaseHeaders)).text, i)
    ensures Resolve(Some(url), server, parse) == Attempt(TokenMissing, [Get(LandingUrl, BaseHeaders)])
  {
    PatternsWellFormed();
    SearchAbsent(SessionTokenPattern, server(Get(LandingUrl, BaseHeaders)).text);
  }

  /**
   * The HD request, when sent, is the third request: to the resolver's origin
   * plus the anchor's `data-directurl`, with the post headers and a body of
   * `tt` alone.
   */
  lemma HdRequestShape(soup: Soup, server: Request -> Response)
    requires soup.hdAnchor.Some? && soup.ttInput.Some? && soup.hdAnchor.value.Get("data-directurl").Some?
    ensures var esc := Escalate(soup, PostHeaders(BaseHeaders), server);
      esc.Tried? && esc.request == Post(Origin + soup.hdAnchor.value.Get("data-directurl").value,
                                        PostHeaders(BaseHeaders), map["tt" := soup.ttInput.value.Get("value")])
      && esc.request.form.Keys == {"tt"}
  {
  }

  /**
   * HD is chosen exactly when the anchor, the `tt` input, the directurl, a
   * successful HD response and a non-empty `hx-redirect` header are all there;
   * the URL is then the header verbatim and the file is the HD name, whatever
   * standard anchors the page also has.
   */
  lemma HdTakesPrecedence(soup: Soup, server: Request -> Response, direct: string, headers: map<string, string>, body: string)
    requires soup.hdAnchor.Some? && soup.ttInput.Some? && soup.hdAnchor.value.Get("data-directurl") == Some(direct)
    requires server(Post(Origin + direct, PostHeaders(BaseHeaders), map["tt" := soup.ttInput.value.Get("value")])) == Ok(body, headers)
    requires "hx-redirect" in headers && headers["hx-redirect"] != ""
    ensures Select(soup, Escalate(soup, PostHeaders(BaseHeaders), server)) == Fetch(Some(headers["hx-redirect"]), HdName, BaseHeaders)
  {
  }

  /**
   * When the HD step is skipped or its answer lacks the header (or the
   * request failed), the standard anchor decides and the file name stays
   * the standard one.
   */
  lemma HdFailureFallsBack(soup: Soup, server: Request -> Response)
    requires var esc := Escalate(soup, PostHeaders(BaseHeaders), server); esc.NotTried? || (esc.Tried? && esc.redirect.None?)
    ensures var o := Select(soup, Escalate(soup, PostHeaders(BaseHeaders), server));
      (soup.watermarkFree.Some? ==> o == Fetch(soup.watermarkFree.value.Get("href"), StandardName, BaseHeaders))
      && (o == LinkMissing <==> soup.watermarkFree.None? && forall t :: t in soup.downloadLinks ==> !MentionsPhrase(t))
  {
  }

  /**
   * An `hx-redirect` header that is present but empty sets the HD file name,
   * yet the empty URL sends control to the standard anchor: the standard
   * video is fetched under the HD name.
   */
  lemma EmptyRedirectKeepsHdName(soup: Soup, server: Request -> Response, t: Tag)
    requires Escalate(soup, PostHeaders(BaseHeaders), server).Tried?
    requires Escalate(soup, PostHeaders(BaseHeaders), server).redirect == Some("")
    requires StandardTag(soup) == Some(t)
    ensures Select(soup, Escalate(soup, PostHeaders(BaseHeaders), server)) == Fetch(t.Get("href"), HdName, BaseHeaders)
  {
  }

  /**
   * `download_tiktok_video(url)`, step by step: `download_url`, `filename`
   * and `download_link_tag` are reassigned as in the script.
   */
  method DownloadTiktokVideo(url: Option<string>, server: Request -> Response, parse: string -> Soup)
    returns (outcome: Outcome, sent: seq<Request>)
    ensures Attempt(outcome, sent) == Resolve(url, server, parse)
  {
    sent := [];
    if url.None? || url.value == "" {
      outcome := NoUrl;
      return;
    }
    var headers := BaseHeaders;
    var landing := Get(LandingUrl, headers);
    sent := sent + [landing];
    var response := server(landing);
    if response.Failed? {
      outcome := LandingFailed;
      return;
    }
    var token := Search(SessionTokenPattern, response.text);
    if token.None? {
      outcome := TokenMissing;
      return;
    }
    var postHeaders := PostHeaders(headers);
    var data := map["id" := Some(url.value), "locale" := Some("en"), "tt" := Some(token.value)];
    var submit := Post(SubmitUrl, postHeaders, data);
    sent := sent + [submit];
    var postResponse := server(submit);
    if postResponse.Failed? {
      outcome := SubmitFailed;
      return;
    }
    var soup := parse(postResponse.text);

    var downloadUrl: Option<string> := None;
    var filename := StandardName;
    if soup.hdAnchor.Some? {
      var dataDirecturl := soup.hdAnchor.value.Get("data-directurl");
      if soup.ttInput.Some? {
        var token2 := soup.ttInput.value.Get("value");
        if dataDirecturl.None? {
          outcome := HdCrash;
          return;
        }
        var hdRequest := Post(Origin + dataDirecturl.value, postHeaders, map["tt" := token2]);
        sent := sent + [hdRequest];
        var hdResponse := server(hdRequest);
        if hdResponse.Ok? && "hx-redirect" in hdResponse.headers {
          downloadUrl := Some(hdResponse.headers["hx-redirect"]);
          filename := HdName;
        }
      }
    }

    if downloadUrl.None? || downloadUrl.value == "" {
      var downloadLinkTag := soup.watermarkFree;
      if downloadLinkTag.None? {
        downloadLinkTag := FindMentioning(soup.downloadLinks);
      }
      if downloadLinkTag.None? {
        outcome := LinkMissing;
        return;
      }
      downloadUrl := downloadLinkTag.value.Get("href");
    }
    outcome := Fetch(downloadUrl, filename, headers);
  }
}
