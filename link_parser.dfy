/**
 * DownloadLinkParser of tikdownloader_local.py: an html.parser subclass
 * whose three handlers drive a small state machine (`_in_link`,
 * `_current_href`, `_current_label`) and append `DownloadLink` records.
 *
 * The tokenizer itself is html.parser's; here its output is a sequence of
 * events. `Step` says what one handler call does, `Run` what a stream of
 * them does, and the class `DownloadLinkParser` is the handlers written
 * as methods over fields, each proved to perform `Step`.
 */
module LinkParser {
  import opened Wrappers
  import opened Text

  /** One `(name, value)` pair as html.parser reports it; `value` is None for a bare attribute. */
  datatype Attr = Attr(name: string, value: Option<string>)

  /** The calls html.parser makes while it tokenizes a document. */
  datatype Event =
    | StartTag(tag: string, attrs: seq<Attr>)
    | EndTag(tag: string)
    | Data(text: string)

  datatype DownloadLink = DownloadLink(caption: string, url: string)

  /** The class marker an anchor needs to count as a download button. */
  const ButtonClass := "tik-button-dl"
  /** The label used when the anchor's text is empty or all whitespace. */
  const DefaultLabel := "download"

  /** `{name: value for name, value in attrs}`. */
  function AttrMap(attrs: seq<Attr>): map<string, Option<string>> {
    if attrs == [] then map[]
    else
      var last := attrs[|attrs| - 1];
      AttrMap(attrs[..|attrs| - 1])[last.name := last.value]
  }

  /** `v` is the value of the last pair named `name`. */
  ghost predicate IsLastValue(attrs: seq<Attr>, name: string, v: Option<string>) {
    exists i :: 0 <= i < |attrs| && attrs[i] == Attr(name, v) && forall j :: i < j < |attrs| ==> attrs[j].name != name
  }

  /** A name is in the attribute map iff some pair carries it. */
  lemma {:induction false} AttrMapKeys(attrs: seq<Attr>, name: string)
    ensures name in AttrMap(attrs) <==> exists i :: 0 <= i < |attrs| && attrs[i].name == name
  {
    if attrs != [] {
      var init := attrs[..|attrs| - 1];
      AttrMapKeys(init, name);
      if exists i :: 0 <= i < |init| && init[i].name == name {
        var i :| 0 <= i < |init| && init[i].name == name;
        assert attrs[i] == init[i];
      }
      if exists i :: 0 <= i < |attrs| && attrs[i].name == name {
        var i :| 0 <= i < |attrs| && attrs[i].name == name;
        if i < |init| {
          assert init[i] == attrs[i];
        }
      }
    }
  }

  /** In the attribute map the last duplicate wins. */
  lemma {:induction false} AttrMapLastWins(attrs: seq<Attr>, name: string)
    requires name in AttrMap(attrs)
    ensures IsLastValue(attrs, name, AttrMap(attrs)[name])
  {
    var init, last := attrs[..|attrs| - 1], attrs[|attrs| - 1];
    var v := AttrMap(attrs)[name];
    if last.name == name {
      assert attrs[|attrs| - 1] == Attr(name, v);
    } else {
      assert AttrMap(attrs)[name] == AttrMap(init)[name];
      AttrMapLastWins(init, name);
      var i :| 0 <= i < |init| && init[i] == Attr(name, v) && forall j :: i < j < |init| ==> init[j].name != name;
      assert attrs[i] == init[i];
      assert forall j :: i < j < |attrs| ==> attrs[j].name != name by {
        forall j | i < j < |attrs| ensures attrs[j].name != name {
          if j < |init| { assert attrs[j] == init[j]; }
        }
      }
    }
  }

  /** `attr_map.get("class", "") or ""`: a missing class and `class=None` both read as "". */
  function ClassValue(m: map<string, Option<string>>): string {
    if "class" in m && m["class"].Some? then m["class"].value else ""
  }

  /** `attr_map.get("href")`. */
  function HrefValue(m: map<string, Option<string>>): Option<string> {
    if "href" in m then m["href"] else None
  }

  /**
   * The href a start tag opens a link with: only an `a` tag whose class
   * contains the button marker and whose href is non-empty opens one.
   */
  function OpenedHref(tag: string, attrs: seq<Attr>): Option<string> {
    if tag != "a" then None
    else
      var m := AttrMap(attrs);
      if !Contains(ClassValue(m), ButtonClass) then None
      else
        match HrefValue(m)
        case Some(h) => if h == "" then None else Some(h)
        case None => None
  }

  /** The value recorded by the last pair named `name` is the map's value for `name`. */
  lemma LastValueInMap(attrs: seq<Attr>, name: string, v: Option<string>)
    requires IsLastValue(attrs, name, v)
    ensures name in AttrMap(attrs) && AttrMap(attrs)[name] == v
  {
  }

  /**
   * The opening condition stated on the raw attribute list: the tag is `a`,
   * the LAST `href` pair carries a non-empty value, and the LAST `class`
   * pair carries a value containing the marker.
   */
  lemma OpenedHrefMeaning(tag: string, attrs: seq<Attr>, h: string)
    ensures OpenedHref(tag, attrs) == Some(h) <==>
      tag == "a" && h != "" && IsLastValue(attrs, "href", Some(h))
      && exists c :: IsLastValue(attrs, "class", Some(c)) && Contains(c, ButtonClass)
  {
    if OpenedHref(tag, attrs) == Some(h) {
      OpenedHrefSound(tag, attrs, h);
    }
    if tag == "a" && h != "" && IsLastValue(attrs, "href", Some(h))
       && exists c :: IsLastValue(attrs, "class", Some(c)) && Contains(c, ButtonClass) {
      var c :| IsLastValue(attrs, "class", Some(c)) && Contains(c, ButtonClass);
      LastValueInMap(attrs, "href", Some(h));
      LastValueInMap(attrs, "class", Some(c));
    }
  }

  lemma OpenedHrefSound(tag: string, attrs: seq<Attr>, h: string)
    requires OpenedHref(tag, attrs) == Some(h)
    ensures tag == "a" && h != "" && IsLastValue(attrs, "href", Some(h))
    ensures exists c :: IsLastValue(attrs, "class", Some(c)) && Contains(c, ButtonClass)
  {
    var m := AttrMap(attrs);
    assert tag == "a";
    assert Contains(ClassValue(m), ButtonClass);
    assert "class" in m && m["class"].Some?;
    assert HrefValue(m) == Some(h);
    AttrMapLastWins(attrs, "href");
    AttrMapLastWins(attrs, "class");
    var c := m["class"].value;
    assert IsLastValue(attrs, "class", Some(c));
  }

  /** A `class` attribute given without a value (`class=None`) never opens a link. */
  lemma ClassNoneNeverOpens(tag: string, attrs: seq<Attr>)
    requires IsLastValue(attrs, "class", None)
    ensures OpenedHref(tag, attrs).None?
  {
    AttrMapKeys(attrs, "class");
    AttrMapLastWins(attrs, "class");
    LastValueUnique(attrs, "class", None, AttrMap(attrs)["class"]);
    assert !Contains("", ButtonClass);
  }

  /** The last pair with a given name is unique. */
  lemma LastValueUnique(attrs: seq<Attr>, name: string, v: Option<string>, w: Option<string>)
    requires IsLastValue(attrs, name, v) && IsLastValue(attrs, name, w)
    ensures v == w
  {
  }

  /** A label with no surrounding whitespace and at least one character. */
  predicate GoodLabel(l: string) {
    l != "" && !IsSpace(l[0]) && !IsSpace(l[|l| - 1])
  }

  /** `"".join(parts).strip() or "download"`. */
  function LabelOf(parts: seq<string>): (r: string)
    ensures GoodLabel(r)
    ensures (forall k :: 0 <= k < |Join(parts)| ==> IsSpace(Join(parts)[k])) ==> r == DefaultLabel
    ensures Strip(Join(parts)) != "" ==> r == Strip(Join(parts))
  {
    var text := Strip(Join(parts));
    if text == "" then DefaultLabel else text
  }

  /** The parser's fields: `_in_link`, `_current_href`, `_current_label` and `links`. */
  datatype ParserState = ParserState(inLink: bool, href: Option<string>, parts: seq<string>, links: seq<DownloadLink>)

  /** The state `__init__` leaves. */
  const Initial := ParserState(false, None, [], [])

  /**
   * What the handlers keep true: a link is open exactly when a (non-empty)
   * href is stored, no label is collected while none is open, and every
   * emitted link has a non-empty url and a trimmed, non-empty label.
   */
  ghost predicate Valid(s: ParserState) {
    (s.inLink <==> s.href.Some?)
    && (s.href.Some? ==> s.href.value != "")
    && (!s.inLink ==> s.parts == [])
    && forall k :: 0 <= k < |s.links| ==> s.links[k].url != "" && GoodLabel(s.links[k].caption)
  }

  /** The event that closes an open link. */
  predicate Closes(e: Event) {
    e.EndTag? && e.tag == "a"
  }

  /** A start tag that opens (or re-opens) a link. */
  predicate Opens(e: Event) {
    e.StartTag? && OpenedHref(e.tag, e.attrs).Some?
  }

  /** One handler call: `handle_starttag`, `handle_endtag` or `handle_data`. */
  function Step(s: ParserState, e: Event): (r: ParserState)
    ensures Valid(s) ==> Valid(r)
    ensures |s.links| <= |r.links| && r.links[..|s.links|] == s.links
    ensures |r.links| == |s.links| + 1 <==> Closes(e) && s.inLink && s.href.Some? && s.href.value != ""
    ensures |r.links| != |s.links| + 1 ==> r.links == s.links
    ensures |r.links| == |s.links| + 1 ==> !r.inLink && r.href.None? && r.parts == []
  {
    match e
    case StartTag(tag, attrs) =>
      (match OpenedHref(tag, attrs)
       case Some(h) => s.(inLink := true, href := Some(h), parts := [])
       case None => s)
    case EndTag(tag) =>
      if tag != "a" || !s.inLink || s.href.None? || s.href.value == "" then s
      else ParserState(false, None, [], s.links + [DownloadLink(LabelOf(s.parts), s.href.value)])
    case Data(text) =>
      if s.inLink then s.(parts := s.parts + [text]) else s
  }

  /** The number of `</a>` events in a stream. */
  function CountCloses(evs: seq<Event>): nat {
    if evs == [] then 0 else CountCloses(evs[..|evs| - 1]) + (if Closes(evs[|evs| - 1]) then 1 else 0)
  }

  /**
   * Feeding a stream of events, in order. Links only grow, earlier links
   * keep their places (document order), at most one link is added per
   * `</a>`, and the handlers' invariant is kept.
   */
  function Run(s: ParserState, evs: seq<Event>): (r: ParserState)
    ensures Valid(s) ==> Valid(r)
    ensures |s.links| <= |r.links| <= |s.links| + CountCloses(evs)
    ensures r.links[..|s.links|] == s.links
  {
    if evs == [] then s
    else Step(Run(s, evs[..|evs| - 1]), evs[|evs| - 1])
  }

  /** `parse_download_links` on the tokenizer's events. */
  function ExtractedLinks(evs: seq<Event>): seq<DownloadLink> {
    Run(Initial, evs).links
  }

  /** Feeding two streams one after the other is feeding their concatenation. */
  lemma {:induction false} RunAppend(s: ParserState, a: seq<Event>, b: seq<Event>)
    ensures Run(s, a + b) == Run(Run(s, a), b)
  {
    if b == [] {
      assert a + b == a;
    } else {
      RunAppend(s, a, b[..|b| - 1]);
      assert (a + b)[..|a + b| - 1] == a + b[..|b| - 1];
      assert (a + b)[|a + b| - 1] == b[|b| - 1];
    }
  }

  /** The texts of the `Data` events of a stream, in order. */
  function DataTexts(evs: seq<Event>): seq<string> {
    if evs == [] then []
    else DataTexts(evs[..|evs| - 1]) + (if evs[|evs| - 1].Data? then [evs[|evs| - 1].text] else [])
  }

  /** Events that neither open nor close a link. */
  predicate Inert(evs: seq<Event>) {
    forall k :: 0 <= k < |evs| ==> !Opens(evs[k]) && !Closes(evs[k])
  }

  /** While a link is open, inert events only add their text to the label. */
  lemma {:induction false} CollectsLabel(o: ParserState, body: seq<Event>)
    requires o.inLink && o.href.Some? && o.href.value != ""
    requires Inert(body)
    ensures Run(o, body) == o.(parts := o.parts + DataTexts(body))
  {
    if body != [] {
      var init := body[..|body| - 1];
      assert Inert(init) by {
        forall k | 0 <= k < |init| ensures !Opens(init[k]) && !Closes(init[k]) {
          assert init[k] == body[k];
        }
      }
      CollectsLabel(o, init);
      assert !Opens(body[|body| - 1]) && !Closes(body[|body| - 1]);
    }
  }

  /** An opening start tag followed by inert events leaves that link open, holding their text. */
  lemma OpenedThenInert(s: ParserState, open: Event, body: seq<Event>)
    requires Valid(s) && Opens(open) && Inert(body)
    ensures Run(s, [open] + body) == ParserState(true, OpenedHref(open.tag, open.attrs), DataTexts(body), s.links)
  {
    var o := Step(s, open);
    assert o == ParserState(true, OpenedHref(open.tag, open.attrs), [], s.links);
    assert Run(s, [open]) == o by {
      assert [open][..0] == [];
    }
    RunAppend(s, [open], body);
    CollectsLabel(o, body);
  }

  /**
   * An opening start tag, then inert events, then `</a>` appends exactly one
   * link: the tag's href, labelled with the stripped concatenation of the
   * data seen in between; the state is then reset.
   */
  lemma LinkSegment(s: ParserState, open: Event, body: seq<Event>)
    requires Valid(s) && Opens(open) && Inert(body)
    ensures Run(s, [open] + body + [EndTag("a")]) ==
      ParserState(false, None, [], s.links + [DownloadLink(LabelOf(DataTexts(body)), OpenedHref(open.tag, open.attrs).value)])
  {
    OpenedThenInert(s, open, body);
    var closing := Run(s, [open] + body);
    RunAppend(s, [open] + body, [EndTag("a")]);
    assert Run(closing, [EndTag("a")]) == Step(closing, EndTag("a")) by {
      assert [EndTag("a")][..0] == [];
    }
  }

  /**
   * A second opening tag before the first link closes replaces the href and
   * discards the label collected so far: only the second link is emitted.
   */
  lemma OverwriteDiscards(s: ParserState, first: Event, body1: seq<Event>, second: Event, body2: seq<Event>)
    requires Valid(s) && Opens(first) && Opens(second) && Inert(body1) && Inert(body2)
    ensures Run(s, ([first] + body1) + ([second] + body2 + [EndTag("a")])).links ==
      s.links + [DownloadLink(LabelOf(DataTexts(body2)), OpenedHref(second.tag, second.attrs).value)]
  {
    var pre := [first] + body1;
    OpenedThenInert(s, first, body1);
    LinkSegment(Run(s, pre), second, body2);
    RunAppend(s, pre, [second] + body2 + [EndTag("a")]);
  }

  /** With no link open, data, end tags and non-qualifying start tags change nothing. */
  lemma {:induction false} QuietWhileClosed(s: ParserState, evs: seq<Event>)
    requires Valid(s) && !s.inLink
    requires forall k :: 0 <= k < |evs| ==> !Opens(evs[k])
    ensures Run(s, evs) == s
  {
    if evs != [] {
      var init := evs[..|evs| - 1];
      assert forall k :: 0 <= k < |init| ==> !Opens(init[k]) by {
        forall k | 0 <= k < |init| ensures !Opens(init[k]) {
          assert init[k] == evs[k];
        }
      }
      QuietWhileClosed(s, init);
      assert !Opens(evs[|evs| - 1]);
    }
  }

  /** The hrefs of the opening start tags of a stream, in document order. */
  function OpenedHrefs(evs: seq<Event>): seq<string> {
    if evs == [] then []
    else
      var e := evs[|evs| - 1];
      OpenedHrefs(evs[..|evs| - 1]) + (if Opens(e) then [OpenedHref(e.tag, e.attrs).value] else [])
  }

  /** Every url held by `s` (stored href or emitted link) is in `hs`. */
  ghost predicate UrlsFrom(s: ParserState, hs: seq<string>) {
    (forall k :: 0 <= k < |s.links| ==> s.links[k].url in hs)
    && (s.href.Some? ==> s.href.value in hs)
  }

  lemma {:induction false} RunUrlsFrom(evs: seq<Event>)
    ensures UrlsFrom(Run(Initial, evs), OpenedHrefs(evs))
  {
    if evs != [] {
      var init, e := evs[..|evs| - 1], evs[|evs| - 1];
      RunUrlsFrom(init);
      var before := Run(Initial, init);
      var hs := OpenedHrefs(evs);
      assert forall u :: u in OpenedHrefs(init) ==> u in hs;
      var after := Step(before, e);
      assert after.links[..|before.links|] == before.links;
      forall k | 0 <= k < |after.links| ensures after.links[k].url in hs {
        if k < |before.links| {
          assert after.links[k] == before.links[k];
        }
      }
    }
  }

  /** Every extracted link's url is the href of some qualifying start tag of the document. */
  lemma LinksComeFromOpeningTags(evs: seq<Event>)
    ensures forall l :: l in ExtractedLinks(evs) ==> l.url in OpenedHrefs(evs)
  {
    RunUrlsFrom(evs);
  }

  /** Every extracted link has a non-empty url and a trimmed, non-empty label. */
  lemma ExtractedLinksWellFormed(evs: seq<Event>)
    ensures forall l :: l in ExtractedLinks(evs) ==> l.url != "" && GoodLabel(l.caption)
  {
  }

  /** `DownloadLinkParser`: the handlers update the parser's fields in place. */
  class DownloadLinkParser {
    var inLink: bool
    var currentHref: Option<string>
    var currentLabel: seq<string>
    var links: seq<DownloadLink>

    /** The fields as a value. */
    function State(): ParserState
      reads this
    {
      ParserState(inLink, currentHref, currentLabel, links)
    }

    constructor ()
      ensures State() == Initial
    {
      inLink := false;
      currentHref := None;
      currentLabel := [];
      links := [];
    }

    /** `handle_starttag`. */
    method HandleStartTag(tag: string, attrs: seq<Attr>)
      modifies this
      ensures State() == Step(old(State()), StartTag(tag, attrs))
    {
      if tag != "a" {
        return;
      }
      var attrMap := AttrMap(attrs);
      var classValue := ClassValue(attrMap);
      if !Contains(classValue, ButtonClass) {
        return;
      }
      var href := HrefValue(attrMap);
      if href.None? || href.value == "" {
        return;
      }
      inLink := true;
      currentHref := href;
      currentLabel := [];
    }

    /** `handle_endtag`. */
    method HandleEndTag(tag: string)
      modifies this
      ensures State() == Step(old(State()), EndTag(tag))
    {
      if tag != "a" || !inLink || currentHref.None? || currentHref.value == "" {
        return;
      }
      var caption := LabelOf(currentLabel);
      links := links + [DownloadLink(caption, currentHref.value)];
      inLink := false;
      currentHref := None;
      currentLabel := [];
    }

    /** `handle_data`. */
    method HandleData(data: string)
      modifies this
      ensures State() == Step(old(State()), Data(data))
    {
      if inLink {
        currentLabel := currentLabel + [data];
      }
    }

    /** `feed`: html.parser calls the handlers once per event, in document order. */
    method Feed(events: seq<Event>)
      modifies this
      ensures State() == Run(old(State()), events)
    {
      var i := 0;
      while i < |events|
        invariant 0 <= i <= |events|
        invariant State() == Run(old(State()), events[..i])
      {
        match events[i] {
          case StartTag(tag, attrs) => HandleStartTag(tag, attrs);
          case EndTag(tag) => HandleEndTag(tag);
          case Data(text) => HandleData(text);
        }
        assert events[..i + 1][..i] == events[..i];
        i := i + 1;
      }
      assert events[..i] == events;
    }
  }

  /** `parse_download_links`: a fresh parser fed the whole document. */
  method ParseDownloadLinks(events: seq<Event>) returns (links: seq<DownloadLink>)
    ensures links == ExtractedLinks(events)
    ensures forall l :: l in links ==> l.url in OpenedHrefs(events)
  {
    var parser := new DownloadLinkParser();
    parser.Feed(events);
    links := parser.links;
    LinksComeFromOpeningTags(events);
  }
}
