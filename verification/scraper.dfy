/**
 * The site dispatch of backend/scraper.py: which adapter reads a fetched
 * page, which CSS selectors each adapter asks for, and how the description
 * body falls back to the whole page's text.
 *
 * The parsed page is abstract: for every selector the adapters use it may
 * hold the text of the first matching element (already joined with single
 * spaces and stripped, as `get_text(" ", strip=True)` gives it), and it
 * holds the text of the whole document the same way. The URL arrives as its
 * network location, as `urlparse(url).netloc` gives it.
 */
module Scraper {
  import opened Wrappers
  import opened Text

  /** An element found by `select_one`, seen through its text. */
  datatype Element = Element(text: string)

  /** A parsed page: the first element each selector finds, and the text of the whole document. */
  datatype Dom = Dom(found: map<string, Element>, documentText: string)

  /** `dom.select_one(selector)`. */
  function SelectOne(dom: Dom, selector: string): (r: Option<Element>)
    ensures r.Some? <==> selector in dom.found
    ensures r.Some? ==> r.value == dom.found[selector]
  {
    if selector in dom.found then Some(dom.found[selector]) else None
  }

  /** `_text_of`: a `Tag` is always truthy, so only a missing element gives `""`. */
  function TextOf(el: Option<Element>): (r: string)
    ensures el.None? ==> r == ""
    ensures el.Some? ==> r == el.value.text
  {
    match el
    case None => ""
    case Some(e) => e.text
  }

  /** The `(text, meta)` pair every extractor returns. */
  datatype Scraped = Scraped(text: string, meta: map<string, string>)

  /** The keys of an adapter's meta record. */
  const MetaKeys: set<string> := {"company", "position", "location"}

  const IndeedTitle := "h1.jobsearch-JobInfoHeader-title"
  const IndeedCompany := "div.jobsearch-InlineCompanyRating div:nth-child(1)"
  const IndeedLocation := "div.jobsearch-InlineCompanyRating div:nth-child(3)"
  const IndeedBody := "div#jobDescriptionText"

  const LinkedInTitle := "h1.top-card-layout__title"
  const LinkedInCompany := "a.topcard__org-name-link"
  const LinkedInLocation := "span.topcard__flavor--bullet"
  const LinkedInBody := "div.description__text"
  const LinkedInBodyAlt := "div.show-more-less-html__markup"

  /** `body or dom.get_text(" ", strip=True)` together with the meta record. */
  function Adapted(dom: Dom, title: string, company: string, location: string, body: string): (r: Scraped)
    ensures r.meta.Keys == MetaKeys
    ensures r.meta["company"] == company && r.meta["position"] == title && r.meta["location"] == location
    ensures body != [] ==> r.text == body
    ensures body == [] ==> r.text == dom.documentText
  {
    var meta := map["company" := company, "position" := title, "location" := location];
    Scraped(if body != [] then body else dom.documentText, meta)
  }

  /** `_extract_indeed`. */
  function ExtractIndeed(dom: Dom): (r: Scraped)
    ensures r.meta.Keys == MetaKeys
    ensures r.meta["position"] == (if IndeedTitle in dom.found then dom.found[IndeedTitle].text else "")
    ensures r.meta["company"] == (if IndeedCompany in dom.found then dom.found[IndeedCompany].text else "")
    ensures r.meta["location"] == (if IndeedLocation in dom.found then dom.found[IndeedLocation].text else "")
    ensures IndeedBody in dom.found && dom.found[IndeedBody].text != [] ==> r.text == dom.found[IndeedBody].text
    ensures (IndeedBody !in dom.found || dom.found[IndeedBody].text == []) ==> r.text == dom.documentText
  {
    var title := TextOf(SelectOne(dom, IndeedTitle));
    var company := TextOf(SelectOne(dom, IndeedCompany));
    var location := TextOf(SelectOne(dom, IndeedLocation));
    var body := TextOf(SelectOne(dom, IndeedBody));
    Adapted(dom, title, company, location, body)
  }

  /** The LinkedIn description element: the first selector's element whenever
      it exists (even with empty text), the second selector's otherwise. */
  function LinkedInBodyElement(dom: Dom): (r: Option<Element>)
    ensures LinkedInBody in dom.found ==> r == Some(dom.found[LinkedInBody])
    ensures LinkedInBody !in dom.found ==> r == SelectOne(dom, LinkedInBodyAlt)
  {
    var first := SelectOne(dom, LinkedInBody);
    if first.Some? then first else SelectOne(dom, LinkedInBodyAlt)
  }

  /** `_extract_linkedin`. */
  function ExtractLinkedIn(dom: Dom): (r: Scraped)
    ensures r.meta.Keys == MetaKeys
    ensures r.meta["position"] == (if LinkedInTitle in dom.found then dom.found[LinkedInTitle].text else "")
    ensures r.meta["company"] == (if LinkedInCompany in dom.found then dom.found[LinkedInCompany].text else "")
    ensures r.meta["location"] == (if LinkedInLocation in dom.found then dom.found[LinkedInLocation].text else "")
    ensures var body := TextOf(LinkedInBodyElement(dom));
      r.text == if body != [] then body else dom.documentText
  {
    var title := TextOf(SelectOne(dom, LinkedInTitle));
    var company := TextOf(SelectOne(dom, LinkedInCompany));
    var location := TextOf(SelectOne(dom, LinkedInLocation));
    var body := TextOf(LinkedInBodyElement(dom));
    Adapted(dom, title, company, location, body)
  }

  /** Which extractor `extract_text` picks for a network location. */
  datatype Site = Indeed | LinkedIn | Generic

  /** Lower-case the host, then test `"indeed."` before `"linkedin."`; both
      are plain substring tests. */
  function SiteOf(netloc: string): (r: Site)
    ensures r == Indeed <==> Contains(Lower(netloc), "indeed.")
    ensures r == LinkedIn <==> !Contains(Lower(netloc), "indeed.") && Contains(Lower(netloc), "linkedin.")
  {
    var host := Lower(netloc);
    if Contains(host, "indeed.") then Indeed
    else if Contains(host, "linkedin.") then LinkedIn
    else Generic
  }

  /** `extract_text`: the chosen adapter's result, or the whole document's
      text with an empty meta record for any other site. */
  function ExtractText(dom: Dom, netloc: string): (r: Scraped)
    ensures SiteOf(netloc) == Indeed ==> r == ExtractIndeed(dom)
    ensures SiteOf(netloc) == LinkedIn ==> r == ExtractLinkedIn(dom)
    ensures SiteOf(netloc) == Generic ==> r == Scraped(dom.documentText, map[])
  {
    match SiteOf(netloc)
    case Indeed => ExtractIndeed(dom)
    case LinkedIn => ExtractLinkedIn(dom)
    case Generic => Scraped(dom.documentText, map[])
  }

  /** Whatever the site, the text is empty only when the document's text is:
      an adapter falls back to the whole page when its body is missing or empty. */
  lemma TextEmptyOnlyForEmptyDocument(dom: Dom, netloc: string)
    ensures ExtractText(dom, netloc).text == [] ==> dom.documentText == []
    ensures dom.documentText == [] && SiteOf(netloc) == Generic ==> ExtractText(dom, netloc).text == []
  {
    if SiteOf(netloc) == LinkedIn {
      var body := TextOf(LinkedInBodyElement(dom));
      assert ExtractText(dom, netloc).text == if body != [] then body else dom.documentText;
    }
  }

  /** Both adapters always produce the three meta keys; only unknown sites give none. */
  lemma MetaKeysBySite(dom: Dom, netloc: string)
    ensures SiteOf(netloc) != Generic ==> ExtractText(dom, netloc).meta.Keys == MetaKeys
    ensures SiteOf(netloc) == Generic ==> ExtractText(dom, netloc).meta == map[]
  {
  }

  /** A page on which no selector finds anything gives `""` for every meta
      field and the whole document as text. */
  lemma NothingSelected(documentText: string, netloc: string)
    requires SiteOf(netloc) != Generic
    ensures var r := ExtractText(Dom(map[], documentText), netloc);
      && r.text == documentText
      && forall k :: k in MetaKeys ==> r.meta[k] == ""
  {
  }

  /** An empty first LinkedIn description still wins over the second
      selector, so the page text is used rather than the alternative body. */
  lemma EmptyLinkedInBodyShadowsAlternative(dom: Dom)
    requires LinkedInBody in dom.found && dom.found[LinkedInBody].text == []
    ensures ExtractLinkedIn(dom).text == dom.documentText
  {
  }

  /** `str.lower()` leaves the two needles unchanged. */
  lemma NeedlesAreLowerCase()
    ensures Lower("indeed.") == "indeed."
    ensures Lower("linkedin.") == "linkedin."
  {
    LowerUnchanged("indeed.");
    LowerUnchanged("linkedin.");
  }

  /** Any host with `"indeed."` anywhere inside it goes to the Indeed adapter,
      whatever comes before or after: `notindeed.example`, a port, a path-like
      suffix, or `linkedin.` as well. */
  lemma AnyIndeedInfixSelectsIndeed(before: string, after: string)
    ensures SiteOf(before + "indeed." + after) == Indeed
  {
    LowerAppend(before, "indeed.");
    LowerAppend(before + "indeed.", after);
    NeedlesAreLowerCase();
    ContainsInfix(Lower(before), "indeed.", Lower(after));
  }

  /** The test is on the lower-cased host, so capitals do not hide a site. */
  lemma UpperCaseIndeedSelectsIndeed(before: string, after: string)
    ensures SiteOf(before + "INDEED." + after) == Indeed
  {
    LowerAppend(before, "INDEED.");
    LowerAppend(before + "INDEED.", after);
    CapitalNeedleLowers();
    ContainsInfix(Lower(before), "indeed.", Lower(after));
  }

  /** `"INDEED.".lower()` is the Indeed needle. */
  lemma CapitalNeedleLowers()
    ensures Lower("INDEED.") == "indeed."
  {
    LowerPointwise("INDEED.");
  }

  /** A host naming LinkedIn goes to the LinkedIn adapter unless it also names Indeed. */
  lemma LinkedInInfixSelectsLinkedIn(before: string, after: string)
    requires !Contains(Lower(before + "linkedin." + after), "indeed.")
    ensures SiteOf(before + "linkedin." + after) == LinkedIn
  {
    LowerAppend(before, "linkedin.");
    LowerAppend(before + "linkedin.", after);
    NeedlesAreLowerCase();
    ContainsInfix(Lower(before), "linkedin.", Lower(after));
  }

  /** A host naming both sites is dispatched to Indeed, which is tested first. */
  lemma IndeedBeforeLinkedIn(a: string, b: string, c: string)
    ensures SiteOf(a + "linkedin." + b + "indeed." + c) == Indeed
    ensures SiteOf(a + "indeed." + b + "linkedin." + c) == Indeed
  {
    assert a + "linkedin." + b + "indeed." + c == (a + "linkedin." + b) + "indeed." + c;
    AnyIndeedInfixSelectsIndeed(a + "linkedin." + b, c);
    assert a + "indeed." + b + "linkedin." + c == a + "indeed." + (b + "linkedin." + c);
    AnyIndeedInfixSelectsIndeed(a, b + "linkedin." + c);
  }
}
