# TikTok download-link resolution, modelled in Dafny

This project models the decision logic of two scripts that turn a TikTok
video link into a downloadable file through third-party resolver sites.

- **tikdownloader_local.py** posts a query to the tikdownloader.io search API,
  checks the JSON answer's `status`, and scans its `data` HTML fragment.
  `DownloadLinkParser`, an `html.parser` subclass, records an `<a>` whose
  `class` value contains the substring `tik-button-dl` and whose `href` is
  non-empty. It emits that anchor as a `DownloadLink(label, url)` when its
  `</a>` arrives, unless another such `<a>` opens first; an anchor that is
  never closed is never emitted.
  `parse_convert_metadata` pulls `k_exp`, `k_token` and `k_url_convert` out of
  the page's script with three regular expressions.
- **downloader.py** (`download_tiktok_video`) fetches the ssstik.io landing
  page and extracts the `s_tt` token. It posts the video URL with a fixed
  HTMX header set. It then picks a target in a fixed priority order: the HD
  button, the `without_watermark` anchor, a `download_link` anchor whose text
  mentions "Without watermark", or nothing.

Modules, one per concern:

- `Wrappers` (wrappers.dfy): `Option`, i.e. Python's `None` or a value.
- `Text` (text.dfy): Python's whitespace set, `str.strip()`, `"".join` and
  the substring test `sub in s`.
- `Patterns` (patterns.dfy): the four regular expressions. All four have the
  shape `NAME\s*=\s*Q(VALUE)Q`, so they are written as one parameterised
  pattern. `MatchAt` scans greedily. `Decomposes` reads the expression as a
  language. The lemmas prove the two agree, and that `Search` returns group 1
  of the leftmost match, as `re.search(...).group(1)` does.
- `LinkParser` (link_parser.dfy): the tokenizer's output is a sequence of
  `StartTag`/`EndTag`/`Data` events. `Step` and `Run` specify the handlers.
  The class `DownloadLinkParser` holds the parser's four fields, and its
  handler methods are proved to perform `Step`. `Feed` is proved to perform
  `Run`.
- `TikDownloader` (tikdownloader.dfy): the convert metadata, the payload
  defaults and `main`'s status check.
- `Ssstik` (ssstik.dfy): `Resolve` is the expected run of
  `download_tiktok_video`. `DownloadTiktokVideo` is the script's procedure,
  which reassigns `download_url`, `filename` and `download_link_tag` step by
  step. It is proved to produce exactly what `Resolve` says.

Abstract inputs:

- The HTTP session is a function `server: Request -> Response`. A raised
  exception or a non-2xx status is the `Response` `Failed`.
- `post_search` is a function `post`, which gives `None` when `post_search`
  raises and the decoded JSON object otherwise.
- BeautifulSoup is `parse: string -> Soup`. A `Soup` holds the results of the
  three plain `find` calls the script makes. For the fourth,
  `find("a", class_="download_link", string=...)`, it holds the list of
  `download_link` anchors in document order; the model applies the script's
  `string=` filter and takes the first match itself (`FindMentioning`).
- `html.parser`'s tokenizer is `tokenize: string -> seq<Event>`.
- The saved request body is given already parsed by `parse_qs`.

## Model

| member | source | states |
|---|---|---|
| `Text.Strip` | tikdownloader_local.py:53 | `.strip()` returns a slice of the input with only whitespace before and after it; the result is empty exactly when the input is all whitespace, and otherwise starts and ends with non-whitespace |
| `Text.LeadEnd` | tikdownloader_local.py:53 | the leading whitespace ends at the first non-whitespace character |
| `Text.TrailStart` | tikdownloader_local.py:53 | the trailing whitespace starts after the last non-whitespace character |
| `Text.ContainsFromMeaning` | tikdownloader_local.py:41 | the substring scan from an offset succeeds exactly when the substring occurs at or after that offset |
| `Text.Join` | tikdownloader_local.py:53 | `"".join(parts)`; its meaning is used through `LinkParser.LabelOf` and `LinkParser.CollectsLabel` |
| `Text.Contains` | tikdownloader_local.py:41 | `sub in s`; `Text.ContainsMeaning` proves it holds exactly when `sub` occurs at some offset |
| `Text.ContainsMeaning` | tikdownloader_local.py:41 | `sub in s` holds exactly when `sub` occurs at some offset of `s` |
| `Patterns.SkipRun` | tikdownloader_local.py:103 | a greedy `\s*` (or VALUE run) stops at the first character outside the class, and everything it skipped is in the class |
| `Patterns.MatchAt` | tikdownloader_local.py:103-105 | the regular expression tried at one offset; `Patterns.MatchAtExact` proves it succeeds exactly when the expression matches there, and `Patterns.MatchAtSound`/`MatchAtComplete` that its capture is the unique group 1 |
| `Patterns.MatchAtSound` | tikdownloader_local.py:103-105 | what the greedy scan captures at an offset is a genuine match of the regular expression there |
| `Patterns.MatchAtComplete` | tikdownloader_local.py:103-105 | any match of the expression at an offset is the one the greedy scan finds, so the capture at a position is unique |
| `Patterns.MatchAtExact` | downloader.py:37 | the expression matches at an offset exactly when the greedy scan succeeds there |
| `Patterns.FirstMatch` | downloader.py:37 | the offset returned is a match and no earlier offset matches; None means no offset matches |
| `Patterns.Search` | tikdownloader_local.py:103-105 | a capture is non-empty, is made of the VALUE class, and for the convert URL begins with `http://` or `https://` |
| `Patterns.SearchSound` | downloader.py:37 | `re.search(...).group(1)` returns group 1 of a match, and the expression matches at no earlier offset |
| `Patterns.SearchLeftmost` | tikdownloader_local.py:103-110 | a match with none earlier is exactly what the search returns |
| `Patterns.SearchAbsent` | tikdownloader_local.py:106-110 | the search gives None exactly when the expression matches nowhere |
| `LinkParser.AttrMap` | tikdownloader_local.py:39 | `dict(attrs)`; `LinkParser.AttrMapKeys` and `LinkParser.AttrMapLastWins` prove its keys are the attribute names and each value is that of the last duplicate |
| `LinkParser.ClassValue` | tikdownloader_local.py:40 | `attr_map.get("class") or ""`; `LinkParser.ClassNoneNeverOpens` shows a valueless class reads as "" |
| `LinkParser.HrefValue` | tikdownloader_local.py:43 | `attr_map.get("href")`; `LinkParser.LastValueInMap` proves it is the last `href` pair's value |
| `LinkParser.OpenedHref` | tikdownloader_local.py:37-45 | the href a start tag opens a link with; `LinkParser.OpenedHrefMeaning` characterises it on the raw attribute list |
| `LinkParser.AttrMapKeys` | tikdownloader_local.py:39 | a name is in the attribute map iff some attribute pair carries it |
| `LinkParser.AttrMapLastWins` | tikdownloader_local.py:39 | a name's value in the attribute map is that of its last duplicate |
| `LinkParser.LastValueInMap` | tikdownloader_local.py:39-43 | the value of the last pair with a name is what `attr_map.get` returns for it |
| `LinkParser.OpenedHrefMeaning` | tikdownloader_local.py:36-48 | a start tag opens a link with href `h` iff it is `a`, the last `href` is the non-empty `h`, and the last `class` value contains `tik-button-dl` |
| `LinkParser.OpenedHrefSound` | tikdownloader_local.py:37-48 | a start tag that opens a link is an `a` whose last `href` is that non-empty href and whose last `class` value contains `tik-button-dl` |
| `LinkParser.ClassNoneNeverOpens` | tikdownloader_local.py:40-41 | a valueless `class` attribute reads as "" and never opens a link |
| `LinkParser.LabelOf` | tikdownloader_local.py:53 | when the collected text is not blank the label is its stripped concatenation, and when it is all whitespace the label is `download`; either way it is non-empty with no surrounding whitespace |
| `LinkParser.Step` | tikdownloader_local.py:36-61 | one handler call keeps the parser invariant, only appends to `links`, appends exactly one link iff it is `</a>` while a link is open, and resets the state after appending |
| `LinkParser.Run` | tikdownloader_local.py:96-99 | feeding events keeps the invariant, keeps earlier links in place (document order), and adds at most one link per `</a>` |
| `LinkParser.ExtractedLinks` | tikdownloader_local.py:96-99 | the links of a fresh parser fed the document; `LinkParser.ExtractedLinksWellFormed` and `LinkParser.LinksComeFromOpeningTags` prove each is well formed and comes from an opening tag |
| `LinkParser.RunAppend` | tikdownloader_local.py:98 | feeding two streams in turn is feeding their concatenation |
| `LinkParser.CollectsLabel` | tikdownloader_local.py:59-61 | while a link is open, data chunks are appended to the label parts in order and nothing else changes |
| `LinkParser.OpenedThenInert` | tikdownloader_local.py:46-61 | after an opening tag and inert events the link is open with the tag's href and the data texts in order, and no link has been added |
| `LinkParser.LinkSegment` | tikdownloader_local.py:50-57 | an opening tag, inert events and `</a>` append exactly one link with the tag's href and the label of the data in between, then reset the state |
| `LinkParser.OverwriteDiscards` | tikdownloader_local.py:46-48 | a second qualifying `<a>` before the first closes replaces the href and drops the collected label; only the second link is emitted |
| `LinkParser.QuietWhileClosed` | tikdownloader_local.py:50-61 | with no link open, data, end tags and non-qualifying start tags change nothing |
| `LinkParser.RunUrlsFrom` | tikdownloader_local.py:43-54 | every url the parser holds, stored or emitted, is the href of an opening start tag of the stream |
| `LinkParser.LinksComeFromOpeningTags` | tikdownloader_local.py:43-54 | every extracted link's url is the href of a qualifying start tag of the document |
| `LinkParser.ExtractedLinksWellFormed` | tikdownloader_local.py:44-54 | every extracted link has a non-empty url and a non-empty, trimmed label |
| `LinkParser.DownloadLinkParser.constructor` | tikdownloader_local.py:29-34 | a new parser has no link open, no href, no label and no links |
| `LinkParser.DownloadLinkParser.HandleStartTag` | tikdownloader_local.py:36-48 | the fields after the call are `Step` of the fields before, for a start tag |
| `LinkParser.DownloadLinkParser.HandleEndTag` | tikdownloader_local.py:50-57 | the fields after the call are `Step` of the fields before, for an end tag |
| `LinkParser.DownloadLinkParser.HandleData` | tikdownloader_local.py:59-61 | the fields after the call are `Step` of the fields before, for a data chunk |
| `LinkParser.DownloadLinkParser.Feed` | tikdownloader_local.py:98 | feeding the events one handler call at a time leaves the fields equal to `Run` of the old fields |
| `LinkParser.ParseDownloadLinks` | tikdownloader_local.py:96-99 | a fresh parser fed the document returns exactly the extracted links, each with a url taken from an opening tag |
| `TikDownloader.ParseConvertMetadata` | tikdownloader_local.py:102-110 | `exp` is a non-empty digit string, `token` a non-empty `[a-f0-9]` string, `url` starts with `http://` or `https://` and holds no `"` |
| `TikDownloader.ConvertMetadataAbsent` | tikdownloader_local.py:106-110 | each field is None exactly when its own pattern matches nowhere in the page |
| `TikDownloader.ConvertMetadataLeftmost` | tikdownloader_local.py:103-105 | each present field is group 1 of the leftmost match of its own pattern |
| `TikDownloader.LoadRequestPayload` | tikdownloader_local.py:71-78 | the payload has exactly the keys `q` and `lang`, each the first value given or else `DEFAULT_QUERY` / `DEFAULT_LANG` |
| `TikDownloader.HandleResponse` | tikdownloader_local.py:135-141 | links are reported iff the answer arrived and its `status` is `ok`; the report is then `ExtractedLinks` and `ParseConvertMetadata` of the answer's `data` ("" when absent); every reported link is well formed |
| `TikDownloader.MissingDataYieldsNothing` | tikdownloader_local.py:139-141 | an `ok` answer without `data` is parsed as "" and yields no links and no metadata |
| `TikDownloader.Main` | tikdownloader_local.py:126-144 | exit status 0 iff links are reported, which happens iff `post_search` answered with status `ok` |
| `Ssstik.PostHeaders` | downloader.py:51-60 | the post headers are the base headers plus the fixed HTMX/Origin/Referer/Content-Type set, which overrides; nothing else is added |
| `Ssstik.FindMentioning` | downloader.py:125 | the first `download_link` anchor whose non-empty text contains "Without watermark", with none earlier; None iff no anchor mentions it |
| `Ssstik.FirstMentioning` | downloader.py:125 | the offset returned is the first `download_link` anchor whose text is non-empty and contains "Without watermark" |
| `Ssstik.StandardTag` | downloader.py:121-125 | the `without_watermark` anchor if present, else the first `download_link` anchor mentioning "Without watermark"; None iff neither exists |
| `Ssstik.Escalate` | downloader.py:84-115 | the HD step is skipped iff the HD anchor or the `tt` input is missing, crashes iff the directurl is missing, and otherwise sends one POST with the post headers and only `tt`, whose `hx-redirect` header (if the answer succeeded) is recorded |
| `Ssstik.Select` | downloader.py:80-131 | crash iff the directurl is missing; a non-empty `hx-redirect` is fetched verbatim as the HD file; with HD skipped, failed or without the header, the standard anchor's href is fetched as the standard file; with a present but empty `hx-redirect`, the standard anchor's href is fetched under the HD file name; no standard anchor in either fallback is `LinkMissing`; a fetch always uses the unmodified base headers |
| `Ssstik.Resolve` | downloader.py:13-131 | an empty or missing URL sends nothing; a missing token sends only the landing GET; at most three requests are sent before the download GET; a fetch uses the base headers |
| `Ssstik.SubmitForm` | downloader.py:62-66 | the submission form `{id, locale: "en", tt}`; `Ssstik.SubmitCarriesLeftmostToken` proves it carries the leftmost `s_tt` capture |
| `Ssstik.SubmitCarriesLeftmostToken` | downloader.py:37-69 | the second request is the POST to `/abc?url=dl` with the HTMX headers and the form `{id, locale: "en", tt}`, where `tt` is the leftmost `s_tt` capture |
| `Ssstik.NoTokenNoPost` | downloader.py:37-42 | when `s_tt` matches nowhere in the landing page, only the landing GET is sent and the attempt stops |
| `Ssstik.HdRequestShape` | downloader.py:88-104 | the HD request goes to `https://ssstik.io` + `data-directurl`, with the post headers and a body holding only `tt` |
| `Ssstik.HdTakesPrecedence` | downloader.py:84-111 | with HD anchor, `tt` input, directurl, a successful answer and a non-empty `hx-redirect`, the target is that header verbatim under `tiktok_video_hd.mp4`, whatever standard anchors exist |
| `Ssstik.HdFailureFallsBack` | downloader.py:112-131 | when HD is skipped, fails or lacks the header, the `without_watermark` href is fetched as `tiktok_video.mp4`; nothing is fetched iff no standard anchor exists |
| `Ssstik.EmptyRedirectKeepsHdName` | downloader.py:108-131 | a present but empty `hx-redirect` falls back to the standard anchor yet keeps the HD file name |
| `Ssstik.DownloadTiktokVideo` | downloader.py:13-138 | the procedure's outcome and the requests it sends are exactly those of `Resolve` |

## Left out

- HTTP itself (`requests.Session`, `urlopen`, `raise_for_status`, timeouts, cookies) is not modelled. Each request's answer is given by the function `server` (or `post`), so an answer depends only on the request and not on cookies set earlier in the session.
- The final streaming GET and the chunked file write (downloader.py:134-146) are I/O. The model stops at `Fetch(url, filename, headers)`, the target the script would download. A missing `href` (url None) makes that GET raise inside its `try`, which is also not modelled.
- `html.parser`'s tokenizer is not modelled: tag and attribute-name case folding, entity decoding, and turning `<a …/>` into a start event followed by an end event. Documents are given as event sequences.
- BeautifulSoup's `find` semantics (class matching, `.string`) are not modelled. The results of the three plain `find` calls are inputs, and so is the candidate list of `download_link` anchors for the fourth.
- `json.loads`, `parse_qs`, `urlencode` and reading `REQUEST_BODY_PATH` are not modelled. The JSON answer is a map from strings to strings, so a non-string `status` or `data` (such as JSON `null`) is not modelled.
- `post_search`'s request construction (URL, headers, encoding) is not modelled; only its answer is.
- Response header names are assumed lower case. The script looks up `hx-redirect` case-insensitively, and duplicate headers are not modelled.
- `requests` drops form values that are `None`, such as a `tt` input without `value`. The model records the form as the script builds it, with an optional value.
- Patterns.InClass: `\d` is modelled as the ASCII digits `0`-`9`. Python also accepts other Unicode decimal digits in a `str` pattern.
- All `print` output, `sys.argv` and `input()` handling, and the process exit of the script entry points are not modelled.
