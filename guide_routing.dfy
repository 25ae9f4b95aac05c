/** The installation guide's two small classification rules: which way a
    documentation URL is loaded (`handleDocLink`), and which anchors of a
    fetched document are marked as external links. */
module GuideRouting {
  import opened Text

  // ---------------------------------------------------------------------
  // handleDocLink

  const InvalidUrlMessage := "Invalid documentation URL"

  /** What `handleDocLink` does with a URL: show an error without fetching
      anything, assemble a published spreadsheet, or fetch a single doc. */
  datatype Route = Invalid(message: string) | Spreadsheet(sheetUrl: string) | SingleDoc(docUrl: string)

  function RouteDocLink(url: string): (r: Route)
    ensures r.Invalid? <==> !("http" <= url)
    ensures r.Invalid? ==> r.message == InvalidUrlMessage
    ensures r.Spreadsheet? ==> r.sheetUrl == url && Contains(url, "spreadsheets") && Contains(url, "output=csv")
    ensures r.SingleDoc? ==> r.docUrl == url && !(Contains(url, "spreadsheets") && Contains(url, "output=csv"))
  {
    if !("http" <= url) then Invalid(InvalidUrlMessage)
    else if Contains(url, "spreadsheets") && Contains(url, "output=csv") then Spreadsheet(url)
    else SingleDoc(url)
  }

  /** The URL a route fetches, if it fetches one. */
  function Fetched(r: Route): Option<string> {
    match r
    case Invalid(_) => None
    case Spreadsheet(u) => Some(u)
    case SingleDoc(u) => Some(u)
  }

  /** Only URLs that start with `http` are ever fetched, and they are
      fetched as given. */
  lemma RouteFetchesHttpOnly(url: string)
    ensures Fetched(RouteDocLink(url)).Some? <==> "http" <= url
    ensures Fetched(RouteDocLink(url)).Some? ==> Fetched(RouteDocLink(url)).value == url
  {
  }

  /** A published CSV export of a Google Sheet is assembled as a
      spreadsheet wherever the two words occur in it. */
  lemma RoutePublishedSheet(pre: string, mid: string, post: string)
    requires "http" <= pre
    ensures RouteDocLink(pre + "spreadsheets" + mid + "output=csv" + post).Spreadsheet?
  {
    var url := pre + "spreadsheets" + mid + "output=csv" + post;
    assert url[..4] == pre[..4];
    assert url[|pre|..][..|"spreadsheets"|] == "spreadsheets";
    ContainsAt(url, "spreadsheets", |pre|);
    var j := |pre| + |"spreadsheets"| + |mid|;
    assert url[j..][..|"output=csv"|] == "output=csv";
    ContainsAt(url, "output=csv", j);
  }

  /** A URL with no mention of `output=csv` (a sheet's edit link, say) is
      fetched as a single document. */
  lemma RouteWithoutCsvIsDoc(url: string)
    requires "http" <= url && !Contains(url, "output=csv")
    ensures RouteDocLink(url) == SingleDoc(url)
  {
  }

  // ---------------------------------------------------------------------
  // External links

  /** Whether a fetched document's anchor is marked external (opened in a
      new tab, `rel="noopener noreferrer"`): it has a non-empty `href`
      that is not a fragment, `javascript:` or `mailto:` link. A missing
      attribute is `None`. */
  function IsExternalHref(href: Option<string>): (external: bool)
    ensures href.Some? && "http" <= href.value ==> external
  {
    assert href.Some? && "http" <= href.value ==> href.value[0] == 'h';
    href.Some? && href.value != [] && !("#" <= href.value) && !("javascript:" <= href.value)
    && !("mailto:" <= href.value)
  }

  /** The cases the rule names are never external. */
  lemma InPageLinksStay(rest: string)
    ensures !IsExternalHref(None) && !IsExternalHref(Some(""))
    ensures !IsExternalHref(Some("#" + rest))
    ensures !IsExternalHref(Some("javascript:" + rest))
    ensures !IsExternalHref(Some("mailto:" + rest))
  {
    assert ("#" + rest)[..1] == "#";
    assert ("javascript:" + rest)[..|"javascript:"|] == "javascript:";
    assert ("mailto:" + rest)[..|"mailto:"|] == "mailto:";
  }
}
