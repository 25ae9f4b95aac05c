/** The placeholder rendering of the SquareHero hub's help pages
    (`renderPlaceholders` and `renderInnerPlaceholders` of the hub): HERO
    ALERT and HERO TIP blocks become indented alert boxes, then LINK and
    GDOC placeholders become anchors, the GDOC ones opening another help
    page inside the hub. The hub shares the guide's markers and its LINK
    anchor, but not its passes. */
module HubRender {
  import opened Text
  import opened Markup
  import opened GuideRender

  const GdocName := "GDOC"
  const GdocOpen := OpenMarker(GdocName)
  const GdocClose := EndMarker(GdocName)

  /** The hub's markers are `{{`, then text without `{`. */
  lemma HubMarkers()
    ensures IsMarker(LinkOpen) && IsMarker(LinkClose) && IsMarker(LinkOpen + "[")
    ensures IsMarker(GdocOpen) && IsMarker(GdocClose) && IsMarker(GdocOpen + "[")
    ensures IsMarker(HeroAlertOpen) && IsMarker(HeroAlertClose) && IsMarker(HeroTipOpen) && IsMarker(HeroTipClose)
  {
    NamedMarkers(LinkName);
    NamedMarkers(GdocName);
    NamedMarkers(HeroAlertName);
    NamedMarkers(HeroTipName);
  }

  // ---------------------------------------------------------------------
  // Templates

  /** The anchor of a GDOC placeholder: a link within the hub that carries
      the help page's address. */
  function GdocAnchor(text: string, url: string): string {
    "<a href=\"#\" class=\"doc-link\"" + " data-doc-url=\"" + url + "\">" + text + "</a>"
  }

  // The alert boxes keep the line breaks and indentation of the source's
  // template literals.
  function AlertBox(kind: string, title: string, text: string): string {
    "\n" + Indent(16) + "<div class=\"alert " + kind + "\">"
    + "\n" + Indent(20) + "<h3>" + title + "</h3>"
    + "\n" + Indent(20) + "<p>" + text + "</p>"
    + "\n" + Indent(16) + "</div>"
    + "\n" + Indent(12)
  }

  function HubHeroAlertHtml(text: string): string {
    AlertBox("hero-alert", "Hero Alert", text)
  }

  function HubHeroTipHtml(text: string): string {
    AlertBox("hero-tip", "Hero Tip", text)
  }

  lemma IndentPlain(n: nat)
    ensures '{' !in Indent(n)
  {
  }

  /** The templates add no `{`. */
  lemma AlertBoxPlain(kind: string, title: string, text: string)
    requires '{' !in kind && '{' !in title && '{' !in text
    ensures '{' !in AlertBox(kind, title, text)
  {
    IndentPlain(12);
    IndentPlain(16);
    IndentPlain(20);
  }

  lemma InnerAnchorPlain(text: string, url: string)
    requires '{' !in text && '{' !in url
    ensures '{' !in InnerAnchor(text, url)
  {
  }

  lemma GdocAnchorPlain(text: string, url: string)
    requires '{' !in text && '{' !in url
    ensures '{' !in GdocAnchor(text, url)
  {
  }

  // ---------------------------------------------------------------------
  // The passes

  function GdocPass(s: string): string {
    ReplaceLinks(s, GdocOpen, GdocClose, GdocAnchor)
  }

  /** The hub's `renderInnerPlaceholders`: the LINK pass, then the GDOC
      pass over its output. Text with neither a `{{ LINK }}[` nor a
      `{{ GDOC }}[` comes back unchanged. */
  function HubInner(text: string): (r: string)
    ensures !Contains(text, LinkOpen + "[") && !Contains(text, GdocOpen + "[") ==> r == text
  {
    GdocPass(RenderInner(text))
  }

  /** A block's body is inner-rendered, then trimmed, then boxed. */
  function HubHeroAlert(body: string): string {
    HubHeroAlertHtml(Trim(HubInner(body)))
  }

  function HubHeroTip(body: string): string {
    HubHeroTipHtml(Trim(HubInner(body)))
  }

  function HubHeroAlertPass(s: string): string {
    ReplaceBlocks(s, HeroAlertOpen, HeroAlertClose, HubHeroAlert)
  }

  function HubHeroTipPass(s: string): string {
    ReplaceBlocks(s, HeroTipOpen, HeroTipClose, HubHeroTip)
  }

  /** The hub's `renderPlaceholders`: HERO ALERT, then HERO TIP, then the
      inner placeholders over the whole page. A page without `{` is shown
      as it is. */
  function HubRenderPlaceholders(content: string): (r: string)
    ensures '{' !in content ==> r == content
  {
    var page := HubInner(HubHeroTipPass(HubHeroAlertPass(content)));
    assert '{' !in content ==> page == content by {
      if '{' !in content {
        HubPassesKeepPlain(content);
      }
    }
    page
  }

  // ---------------------------------------------------------------------
  // renderInnerPlaceholders

  /** Text without `{` is copied by every pass. */
  lemma HubPassesCopyPlain(x: string, y: string)
    requires '{' !in x
    ensures HubHeroAlertPass(x + y) == x + HubHeroAlertPass(y)
    ensures HubHeroTipPass(x + y) == x + HubHeroTipPass(y)
    ensures RenderInner(x + y) == x + RenderInner(y)
    ensures GdocPass(x + y) == x + GdocPass(y)
  {
    HubMarkers();
    ReplaceBlocksPlainPrefix(x, y, HeroAlertOpen, HeroAlertClose, HubHeroAlert);
    ReplaceBlocksPlainPrefix(x, y, HeroTipOpen, HeroTipClose, HubHeroTip);
    ReplaceLinksPlainPrefix(x, y, LinkOpen, LinkClose, InnerAnchor);
    ReplaceLinksPlainPrefix(x, y, GdocOpen, GdocClose, GdocAnchor);
  }

  /** Text without `{` is not changed by any pass. */
  lemma HubPassesKeepPlain(x: string)
    requires '{' !in x
    ensures HubHeroAlertPass(x) == x && HubHeroTipPass(x) == x && RenderInner(x) == x && GdocPass(x) == x
  {
    HubPassesCopyPlain(x, []);
    assert x + [] == x;
  }

  /** The LINK and GDOC patterns part at their first letter. */
  lemma HubLinkClashes()
    ensures Clashless(GdocOpen + "[", LinkOpen) && Clashless(GdocOpen + "[", LinkClose)
  {
    OpenOpenClash(GdocOpen + "[", GdocName, LinkName, 0);
    OpenEndClash(GdocOpen + "[", GdocName, LinkName);
  }

  /** A well-formed LINK with plain text around it becomes the anchor that
      opens in a new tab. */
  lemma HubInnerLink(pre: string, text: string, url: string, post: string)
    requires WellFormedLink(text, url)
    requires '{' !in pre && '{' !in text && '{' !in url && '{' !in post
    ensures HubInner(pre + (LinkMarkup(LinkOpen, LinkClose, text, url) + post)) == pre + (InnerAnchor(text, url) + post)
  {
    var unit := LinkMarkup(LinkOpen, LinkClose, text, url) + post;
    HubPassesCopyPlain(pre, unit);
    RenderInnerLink(text, url, post);
    HubPassesKeepPlain(post);
    InnerAnchorPlain(text, url);
    HubPassesKeepPlain(InnerAnchor(text, url) + post);
    HubPassesCopyPlain(pre, InnerAnchor(text, url) + post);
  }

  /** A well-formed GDOC with plain text around it becomes the in-hub
      anchor; the LINK pass before it leaves it alone. */
  lemma HubInnerGdoc(pre: string, text: string, url: string, post: string)
    requires WellFormedLink(text, url)
    requires '{' !in pre && '{' !in text && '{' !in url && '{' !in post
    ensures HubInner(pre + (LinkMarkup(GdocOpen, GdocClose, text, url) + post)) == pre + (GdocAnchor(text, url) + post)
  {
    var body := "[" + text + "](" + url + ")";
    var unit := LinkMarkup(GdocOpen, GdocClose, text, url) + post;
    LinkMarkupParts(GdocOpen, GdocClose, text, url, post);
    LinkBodyPlain(text, url);
    HubMarkers();
    OpenOpenClash(LinkOpen + "[", LinkName, GdocName, 0);
    OpenEndClash(LinkOpen + "[", LinkName, GdocName);
    ReplaceLinksCopyUnit(GdocOpen, body, GdocClose, post, LinkOpen, LinkClose, InnerAnchor);
    HubPassesKeepPlain(post);
    HubPassesCopyPlain(pre, unit);
    ReplaceLinksHead(GdocOpen, GdocClose, text, url, post, GdocAnchor);
    GdocAnchorPlain(text, url);
    HubPassesCopyPlain(pre, GdocAnchor(text, url) + post);
  }

  // ---------------------------------------------------------------------
  // renderPlaceholders

  /** Each HERO marker clashes with the markers of the passes after it. */
  lemma HubHeroClashes()
    ensures Clashless(HeroAlertOpen, HeroTipOpen) && Clashless(HeroAlertOpen, HeroTipClose)
    ensures Clashless(HeroAlertOpen, LinkOpen) && Clashless(HeroAlertOpen, LinkClose)
    ensures Clashless(HeroAlertOpen, GdocOpen) && Clashless(HeroAlertOpen, GdocClose)
    ensures Clashless(HeroTipOpen, LinkOpen) && Clashless(HeroTipOpen, LinkClose)
    ensures Clashless(HeroTipOpen, GdocOpen) && Clashless(HeroTipOpen, GdocClose)
  {
    OpenOpenClash(HeroAlertOpen, HeroAlertName, HeroTipName, 5);
    OpenOpenClash(HeroAlertOpen, HeroAlertName, LinkName, 0);
    OpenOpenClash(HeroAlertOpen, HeroAlertName, GdocName, 0);
    OpenOpenClash(HeroTipOpen, HeroTipName, LinkName, 0);
    OpenOpenClash(HeroTipOpen, HeroTipName, GdocName, 0);
    OpenEndClash(HeroAlertOpen, HeroAlertName, HeroTipName);
    OpenEndClash(HeroAlertOpen, HeroAlertName, LinkName);
    OpenEndClash(HeroAlertOpen, HeroAlertName, GdocName);
    OpenEndClash(HeroTipOpen, HeroTipName, LinkName);
    OpenEndClash(HeroTipOpen, HeroTipName, GdocName);
  }

  /** Text without `{` before a page is kept in front of its rendering. */
  lemma HubRenderPlainPrefix(x: string, y: string)
    requires '{' !in x
    ensures HubRenderPlaceholders(x + y) == x + HubRenderPlaceholders(y)
  {
    var a := HubHeroAlertPass(y);
    var b := HubHeroTipPass(a);
    HubPassesCopyPlain(x, y);
    HubPassesCopyPlain(x, a);
    HubPassesCopyPlain(x, b);
    HubPassesCopyPlain(x, RenderInner(b));
  }

  /** The HERO ALERT pass boxes a block whose body has no `{`. */
  lemma HubHeroAlertUnit(body: string, post: string)
    requires '{' !in body && '{' !in post
    ensures HubHeroAlertPass(HeroAlertOpen + body + HeroAlertClose + post) == HubHeroAlertHtml(Trim(body)) + post
  {
    NoOccurrenceInPlain(body, HeroAlertClose + post, HeroAlertClose);
    assert HeroAlertOpen + body + HeroAlertClose + post == HeroAlertOpen + body + (HeroAlertClose + post);
    ReplaceBlocksHead(HeroAlertOpen, body, HeroAlertClose, post, HubHeroAlert);
    HubPassesKeepPlain(post);
    HubPassesKeepPlain(body);
  }

  /** The HERO TIP pass boxes a block whose body has no `{`. */
  lemma HubHeroTipUnit(body: string, post: string)
    requires '{' !in body && '{' !in post
    ensures HubHeroTipPass(HeroTipOpen + body + HeroTipClose + post) == HubHeroTipHtml(Trim(body)) + post
  {
    NoOccurrenceInPlain(body, HeroTipClose + post, HeroTipClose);
    assert HeroTipOpen + body + HeroTipClose + post == HeroTipOpen + body + (HeroTipClose + post);
    ReplaceBlocksHead(HeroTipOpen, body, HeroTipClose, post, HubHeroTip);
    HubPassesKeepPlain(post);
    HubPassesKeepPlain(body);
  }

  /** The boxes around a plain body are plain. */
  lemma HeroBoxesPlain(body: string)
    requires '{' !in body
    ensures '{' !in HubHeroAlertHtml(Trim(body)) && '{' !in HubHeroTipHtml(Trim(body))
  {
    TrimKeepsOut(body, '{');
    AlertBoxPlain("hero-alert", "Hero Alert", Trim(body));
    AlertBoxPlain("hero-tip", "Hero Tip", Trim(body));
  }

  /** A HERO ALERT block with plain text around it renders as the alert box
      around its trimmed body, and nothing else changes. */
  lemma HubRenderHeroAlert(pre: string, body: string, post: string)
    requires '{' !in pre && '{' !in body && '{' !in post
    ensures HubRenderPlaceholders(pre + (HeroAlertOpen + body + HeroAlertClose + post))
         == pre + (HubHeroAlertHtml(Trim(body)) + post)
  {
    var unit := HeroAlertOpen + body + HeroAlertClose + post;
    var box := HubHeroAlertHtml(Trim(body));
    HubHeroAlertUnit(body, post);
    HeroBoxesPlain(body);
    HubPassesKeepPlain(box + post);
    assert HubRenderPlaceholders(unit) == box + post;
    HubRenderPlainPrefix(pre, unit);
  }

  /** A HERO TIP block with plain text around it renders as the tip box
      around its trimmed body, and nothing else changes. */
  lemma HubRenderHeroTip(pre: string, body: string, post: string)
    requires '{' !in pre && '{' !in body && '{' !in post
    ensures HubRenderPlaceholders(pre + (HeroTipOpen + body + HeroTipClose + post))
         == pre + (HubHeroTipHtml(Trim(body)) + post)
  {
    var unit := HeroTipOpen + body + HeroTipClose + post;
    var box := HubHeroTipHtml(Trim(body));
    TipSkipsAlertPass(body, post);
    HubHeroTipUnit(body, post);
    HeroBoxesPlain(body);
    HubPassesKeepPlain(box + post);
    assert HubRenderPlaceholders(unit) == box + post;
    HubRenderPlainPrefix(pre, unit);
  }

  /** The HERO ALERT pass leaves a HERO TIP block alone. */
  lemma TipSkipsAlertPass(body: string, post: string)
    requires '{' !in body && '{' !in post
    ensures HubHeroAlertPass(HeroTipOpen + body + HeroTipClose + post) == HeroTipOpen + body + HeroTipClose + post
  {
    HubMarkers();
    HubHeroClashes();
    ReplaceBlocksCopyUnit(HeroTipOpen, body, HeroTipClose, post, HeroAlertOpen, HeroAlertClose, HubHeroAlert);
    HubPassesKeepPlain(post);
  }

  /** A LINK or GDOC placeholder passes the HERO passes unchanged. */
  lemma HeroPassesSkipLinks(open: string, close: string, body: string, post: string)
    requires (open == LinkOpen && close == LinkClose) || (open == GdocOpen && close == GdocClose)
    requires '{' !in body && '{' !in post
    ensures HubHeroTipPass(HubHeroAlertPass(open + body + close + post)) == open + body + close + post
  {
    HubMarkers();
    HubHeroClashes();
    ReplaceBlocksCopyUnit(open, body, close, post, HeroAlertOpen, HeroAlertClose, HubHeroAlert);
    ReplaceBlocksCopyUnit(open, body, close, post, HeroTipOpen, HeroTipClose, HubHeroTip);
    HubPassesKeepPlain(post);
  }

  /** Outside the HERO blocks a LINK becomes the anchor that opens in a new
      tab, without the guide's `rel` attribute. */
  lemma HubRenderLink(pre: string, text: string, url: string, post: string)
    requires WellFormedLink(text, url)
    requires '{' !in pre && '{' !in text && '{' !in url && '{' !in post
    ensures HubRenderPlaceholders(pre + (LinkMarkup(LinkOpen, LinkClose, text, url) + post))
         == pre + (InnerAnchor(text, url) + post)
  {
    var unit := LinkMarkup(LinkOpen, LinkClose, text, url) + post;
    LinkMarkupParts(LinkOpen, LinkClose, text, url, post);
    LinkBodyPlain(text, url);
    HeroPassesSkipLinks(LinkOpen, LinkClose, "[" + text + "](" + url + ")", post);
    HubInnerLink([], text, url, post);
    assert [] + unit == unit;
    assert [] + (InnerAnchor(text, url) + post) == InnerAnchor(text, url) + post;
    HubRenderPlainPrefix(pre, unit);
  }

  /** Outside the HERO blocks a GDOC becomes the in-hub anchor. */
  lemma HubRenderGdoc(pre: string, text: string, url: string, post: string)
    requires WellFormedLink(text, url)
    requires '{' !in pre && '{' !in text && '{' !in url && '{' !in post
    ensures HubRenderPlaceholders(pre + (LinkMarkup(GdocOpen, GdocClose, text, url) + post))
         == pre + (GdocAnchor(text, url) + post)
  {
    var unit := LinkMarkup(GdocOpen, GdocClose, text, url) + post;
    LinkMarkupParts(GdocOpen, GdocClose, text, url, post);
    LinkBodyPlain(text, url);
    HeroPassesSkipLinks(GdocOpen, GdocClose, "[" + text + "](" + url + ")", post);
    HubInnerGdoc([], text, url, post);
    assert [] + unit == unit;
    assert [] + (GdocAnchor(text, url) + post) == GdocAnchor(text, url) + post;
    HubRenderPlainPrefix(pre, unit);
  }

  /** Inside a HERO ALERT, a lone LINK is rendered before the box is
      built, and its anchor is not trimmed. */
  lemma HubHeroAlertLink(pad: string, text: string, url: string, pad2: string)
    requires WellFormedLink(text, url) && AllSpace(pad) && AllSpace(pad2)
    requires '{' !in pad && '{' !in text && '{' !in url && '{' !in pad2
    ensures HubHeroAlert(pad + (LinkMarkup(LinkOpen, LinkClose, text, url) + pad2))
         == HubHeroAlertHtml(InnerAnchor(text, url))
  {
    var a := InnerAnchor(text, url);
    HubInnerLink(pad, text, url, pad2);
    assert a[0] == '<' && a[|a| - 1] == '>';
    assert pad + (a + pad2) == pad + a + pad2;
    TrimPadded(pad, a, pad2);
  }
}
