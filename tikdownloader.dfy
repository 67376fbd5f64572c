/**
 * The decision logic of tikdownloader_local.py around the parser: the three
 * convert-metadata extractions, the request payload with its defaults, and
 * `main`'s handling of the API's JSON answer.
 */
module TikDownloader {
  import opened Wrappers
  import opened Patterns
  import opened LinkParser

  const DefaultQuery := "https://vt.tiktok.com/ZS5cvC8ua/"
  const DefaultLang := "id"

  datatype ConvertMetadata = ConvertMetadata(exp: Option<string>, token: Option<string>, url: Option<string>)

  /** A non-empty string of decimal digits. */
  predicate IsDigits(v: string) {
    |v| > 0 && forall k :: 0 <= k < |v| ==> '0' <= v[k] <= '9'
  }

  /** A non-empty string over `[a-f0-9]`. */
  predicate IsLowerHex(v: string) {
    |v| > 0 && forall k :: 0 <= k < |v| ==> '0' <= v[k] <= '9' || 'a' <= v[k] <= 'f'
  }

  /** Begins with `http://` or `https://`, has more after it, and holds no double quote. */
  predicate IsConvertUrl(v: string) {
    HttpPrefixed(v) && forall k :: 0 <= k < |v| ==> v[k] != '"'
  }

  /** `parse_convert_metadata`: three independent leftmost-match extractions. */
  function ParseConvertMetadata(html: string): (m: ConvertMetadata)
    ensures m.exp.Some? ==> IsDigits(m.exp.value)
    ensures m.token.Some? ==> IsLowerHex(m.token.value)
    ensures m.url.Some? ==> IsConvertUrl(m.url.value)
  {
    ConvertMetadata(Search(ExpPattern, html), Search(TokenPattern, html), Search(ConvertUrlPattern, html))
  }

  /** Each field is None exactly when its own pattern matches nowhere in the page. */
  lemma ConvertMetadataAbsent(html: string)
    ensures ParseConvertMetadata(html).exp.None? <==> forall i :: 0 <= i <= |html| ==> !AnyMatchAt(ExpPattern, html, i)
    ensures ParseConvertMetadata(html).token.None? <==> forall i :: 0 <= i <= |html| ==> !AnyMatchAt(TokenPattern, html, i)
    ensures ParseConvertMetadata(html).url.None? <==> forall i :: 0 <= i <= |html| ==> !AnyMatchAt(ConvertUrlPattern, html, i)
  {
    PatternsWellFormed();
    SearchAbsent(ExpPattern, html);
    SearchAbsent(TokenPattern, html);
    SearchAbsent(ConvertUrlPattern, html);
  }

  /** Each present field is group 1 of the leftmost match of its own pattern. */
  lemma ConvertMetadataLeftmost(html: string)
    ensures var m := ParseConvertMetadata(html);
      (m.exp.Some? ==> LeftmostCapture(ExpPattern, html, m.exp.value))
      && (m.token.Some? ==> LeftmostCapture(TokenPattern, html, m.token.value))
      && (m.url.Some? ==> LeftmostCapture(ConvertUrlPattern, html, m.url.value))
  {
    PatternsWellFormed();
    var m := ParseConvertMetadata(html);
    if m.exp.Some? { SearchSound(ExpPattern, html); }
    if m.token.Some? { SearchSound(TokenPattern, html); }
    if m.url.Some? { SearchSound(ConvertUrlPattern, html); }
  }

  /** The saved request body after `parse_qs`, which never yields an empty value list. */
  predicate ParsedQuery(q: map<string, seq<string>>) {
    forall k :: k in q ==> |q[k]| > 0
  }

  /**
   * `load_request_payload`: `saved` is the parsed request body, or None when
   * the file does not exist. Always exactly `q` and `lang`, each the first
   * value given or its default.
   */
  function LoadRequestPayload(saved: Option<map<string, seq<string>>>): (payload: map<string, string>)
    requires saved.Some? ==> ParsedQuery(saved.value)
    ensures payload.Keys == {"q", "lang"}
    ensures saved.Some? && "q" in saved.value ==> payload["q"] == saved.value["q"][0]
    ensures saved.None? || "q" !in saved.value ==> payload["q"] == DefaultQuery
    ensures saved.Some? && "lang" in saved.value ==> payload["lang"] == saved.value["lang"][0]
    ensures saved.None? || "lang" !in saved.value ==> payload["lang"] == DefaultLang
  {
    match saved
    case None => map["q" := DefaultQuery, "lang" := DefaultLang]
    case Some(parsed) =>
      var query := (if "q" in parsed then parsed["q"] else [DefaultQuery])[0];
      var lang := (if "lang" in parsed then parsed["lang"] else [DefaultLang])[0];
      map["q" := query, "lang" := lang]
  }

  /** What `main` ends with: exit status 1, or the links and metadata it prints (status 0). */
  datatype MainResult = Failed | Reported(links: seq<DownloadLink>, metadata: ConvertMetadata) {
    function ExitCode(): int {
      if Failed? then 1 else 0
    }
  }

  /**
   * `main` from the API's answer on: `response` is the decoded JSON object,
   * or None when the request raised; `tokenize` is html.parser's tokenizer.
   * A status other than "ok" fails before any parsing, and a missing `data`
   * is parsed as "".
   */
  function HandleResponse(response: Option<map<string, string>>, tokenize: string -> seq<Event>): (r: MainResult)
    ensures r.Reported? <==> response.Some? && "status" in response.value && response.value["status"] == "ok"
    ensures r.Reported? ==>
      var html := if "data" in response.value then response.value["data"] else "";
      r.links == ExtractedLinks(tokenize(html)) && r.metadata == ParseConvertMetadata(html)
    ensures r.Reported? ==> forall l :: l in r.links ==> l.url != "" && GoodLabel(l.caption)
  {
    match response
    case None => Failed
    case Some(json) =>
      if "status" !in json || json["status"] != "ok" then Failed
      else
        var html := if "data" in json then json["data"] else "";
        ExtractedLinksWellFormed(tokenize(html));
        Reported(ExtractedLinks(tokenize(html)), ParseConvertMetadata(html))
  }

  /** An "ok" answer without `data` reports no links and no metadata (the tokenizer sees no events in ""). */
  lemma MissingDataYieldsNothing(json: map<string, string>, tokenize: string -> seq<Event>)
    requires tokenize("") == []
    requires "status" in json && json["status"] == "ok" && "data" !in json
    ensures HandleResponse(Some(json), tokenize) == Reported([], ConvertMetadata(None, None, None))
  {
  }

  /**
   * `main`: build the payload, POST it (`post` stands for `post_search`:
   * the decoded answer, or None when it raised), then handle the answer.
   */
  function Main(saved: Option<map<string, seq<string>>>, post: map<string, string> -> Option<map<string, string>>,
                tokenize: string -> seq<Event>): (r: MainResult)
    requires saved.Some? ==> ParsedQuery(saved.value)
    ensures r.ExitCode() == 0 <==> r.Reported?
    ensures var answer := post(LoadRequestPayload(saved));
      r.Reported? <==> answer.Some? && "status" in answer.value && answer.value["status"] == "ok"
  {
    HandleResponse(post(LoadRequestPayload(saved)), tokenize)
  }
}
