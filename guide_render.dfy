/** The placeholder rendering of the installation guide
    (`renderInnerPlaceholders` and `renderPlaceholders`): seven global
    replacement passes over the fetched document, in a fixed order.

    Decoding a Base64 payload (`atob`, then `escape` and
    `decodeURIComponent`) is the parameter `decode`, whose `Err` carries the
    thrown error's message; the syntax highlighting of a code block is the
    parameter `highlight`; the random part of an HTML preview's container id
    is the parameter `idSuffix`, given the ordinal of the match. */
module GuideRender {
  import opened Text
  import opened Markup
  import opened Escape

  const LinkName := "LINK"
  const LinkOpen := OpenMarker(LinkName)
  const LinkClose := EndMarker(LinkName)
  const HeroAlertName := "HERO ALERT"
  const HeroAlertOpen := OpenMarker(HeroAlertName)
  const HeroAlertClose := EndMarker(HeroAlertName)
  const HeroTipName := "HERO TIP"
  const HeroTipOpen := OpenMarker(HeroTipName)
  const HeroTipClose := EndMarker(HeroTipName)
  const UpdatedName := "UPDATED"
  const UpdatedOpen := OpenMarker(UpdatedName)
  const UpdatedClose := EndMarker(UpdatedName)
  const ScriptName := "SCRIPT"
  const ScriptOpen := OpenMarker(ScriptName)
  const ScriptClose := EndMarker(ScriptName)
  const HtmlName := "HTML"
  const HtmlOpen := OpenMarker(HtmlName)
  const HtmlClose := EndMarker(HtmlName)
  const CodeName := "CODEBLOCK"
  const CodeOpen := OpenMarker(CodeName)
  const CodeClose := EndMarker(CodeName)

  /** Every marker of the guide is `{{`, then text without `{`. */
  lemma GuideMarkers()
    ensures IsMarker(LinkOpen) && IsMarker(LinkClose) && IsMarker(LinkOpen + "[")
    ensures IsMarker(HeroAlertOpen) && IsMarker(HeroAlertClose) && IsMarker(HeroTipOpen) && IsMarker(HeroTipClose)
    ensures IsMarker(UpdatedOpen) && IsMarker(UpdatedClose) && IsMarker(ScriptOpen) && IsMarker(ScriptClose)
    ensures IsMarker(HtmlOpen) && IsMarker(HtmlClose) && IsMarker(CodeOpen) && IsMarker(CodeClose)
  {
    NamedMarkers(LinkName);
    NamedMarkers(HeroAlertName);
    NamedMarkers(HeroTipName);
    NamedMarkers(UpdatedName);
    NamedMarkers(ScriptName);
    NamedMarkers(HtmlName);
    NamedMarkers(CodeName);
  }

  // ---------------------------------------------------------------------
  // Templates

  /** The anchor `renderInnerPlaceholders` writes for a link. */
  function InnerAnchor(text: string, url: string): string {
    "<a href=\"" + url + "\" target=\"_blank\">" + text + "</a>"
  }

  /** The anchor the LINK pass of `renderPlaceholders` writes. */
  function OuterAnchor(text: string, url: string): string {
    "<a href=\"" + url + "\" target=\"_blank\"" + " rel=\"noopener noreferrer\">" + text + "</a>"
  }

  /** `renderInnerPlaceholders`: every well-formed LINK becomes an anchor;
      text without a `{{ LINK }}[` comes back unchanged. */
  function RenderInner(text: string): (r: string)
    ensures !Contains(text, LinkOpen + "[") ==> r == text
  {
    ReplaceLinks(text, LinkOpen, LinkClose, InnerAnchor)
  }

  // The templates are written as short pieces, tag by tag.
  function HeroAlertHtml(text: string): string {
    "<div class=\"alert hero-alert\">" + "<h3>Hero Alert</h3>" + "<p>" + text + "</p></div>"
  }

  function HeroTipHtml(text: string): string {
    "<div class=\"alert hero-tip\">" + "<h3>Hero Tip</h3>" + "<p>" + text + "</p></div>"
  }

  function UpdatedHtml(text: string): string {
    "<div class=\"last-updated\">" + "<p>" + text + "</p></div>"
  }

  /** The templates add no `{`. */
  lemma HeroAlertHtmlPlain(text: string)
    requires '{' !in text
    ensures '{' !in HeroAlertHtml(text)
  {
  }

  lemma HeroTipHtmlPlain(text: string)
    requires '{' !in text
    ensures '{' !in HeroTipHtml(text)
  {
  }

  lemma UpdatedHtmlPlain(text: string)
    requires '{' !in text
    ensures '{' !in UpdatedHtml(text)
  {
  }

  lemma OuterAnchorPlain(text: string, url: string)
    requires '{' !in text && '{' !in url
    ensures '{' !in OuterAnchor(text, url)
  {
  }

  /** A block's body is inner-rendered, then trimmed, then wrapped. */
  function HeroAlert(body: string): string {
    HeroAlertHtml(Trim(RenderInner(body)))
  }

  function HeroTip(body: string): string {
    HeroTipHtml(Trim(RenderInner(body)))
  }

  function Updated(body: string): string {
    UpdatedHtml(Trim(RenderInner(body)))
  }

  /** A SCRIPT placeholder renders as nothing, whether its payload decodes
      or not; running the decoded script is a side effect outside this
      model. */
  function ScriptRender(): (string, nat) -> string {
    (data: string, k: nat) => ""
  }

  /** The container of a decoded HTML payload, or the error panel quoting
      the decoding error's message. */
  function HtmlPreview(decoded: Result<string, string>, suffix: string): string {
    match decoded
    case Ok(content) =>
      "\n                    <div id=\"html-preview-" + suffix
      + "\" class=\"html-preview-container\" style=\"\n                        width: 100%;\n                        max-width: 100%;\n                        margin: 0 auto;\n                        padding: 20px;\n                        box-sizing: border-box;\n                        background: #fff;\n                        border-radius: 4px;\n                        box-shadow: 0 1px 3px rgba(0,0,0,0.1);\n                    \">\n                        "
      + content + "\n                    </div>\n                "
    case Err(message) =>
      "\n                    <div class=\"html-preview-container error\">\n                        <div class=\"error-message\">\n                            <h3>Error</h3>\n                            <p>Failed to decode HTML content: "
      + message
      + "</p>\n                            <p>Please ensure the Base64 content is properly encoded.</p>\n                        </div>\n                    </div>\n                "
  }

  function HtmlRender(decode: string -> Result<string, string>, idSuffix: nat -> string): (string, nat) -> string {
    (data: string, k: nat) => HtmlPreview(decode(data), idSuffix(k))
  }

  const CodeError :=
    "\n                    <div class=\"code-block-container\">\n                        <pre class=\"code-block error\">Error decoding content. Please check the Base64 encoding.</pre>\n                    </div>\n                "

  /** A code block: the escaped and highlighted code for display, and the
      copy button holding the code escaped for an attribute; or the fixed
      error block when the payload does not decode. */
  function CodeBlock(decoded: Result<string, string>, highlight: string -> string): string {
    match decoded
    case Ok(code) =>
      "\n                    <div class=\"code-block-container\">\n                        <pre class=\"code-block\">"
      + highlight(CodeEscape(code))
      + "</pre>\n                        <button class=\"copy-button\" onclick=\"copyToClipboard(this)\" data-code=\""
      + EscapeForHTML(code)
      + "\">\n                            Copy Code\n                            <div class=\"copy-feedback\">Copied!</div>\n                        </button>\n                    </div>\n                "
    case Err(_) => CodeError
  }

  function CodeRender(decode: string -> Result<string, string>, highlight: string -> string): (string, nat) -> string {
    (data: string, k: nat) => CodeBlock(decode(data), highlight)
  }

  // ---------------------------------------------------------------------
  // The passes

  function HeroAlertPass(s: string): string {
    ReplaceBlocks(s, HeroAlertOpen, HeroAlertClose, HeroAlert)
  }

  function HeroTipPass(s: string): string {
    ReplaceBlocks(s, HeroTipOpen, HeroTipClose, HeroTip)
  }

  function UpdatedPass(s: string): string {
    ReplaceBlocks(s, UpdatedOpen, UpdatedClose, Updated)
  }

  function LinkPass(s: string): string {
    ReplaceLinks(s, LinkOpen, LinkClose, OuterAnchor)
  }

  function ScriptPass(s: string): string {
    ReplacePayloads(s, ScriptOpen, ScriptClose, ScriptRender(), 0)
  }

  function HtmlPass(s: string, decode: string -> Result<string, string>, idSuffix: nat -> string): string {
    ReplacePayloads(s, HtmlOpen, HtmlClose, HtmlRender(decode, idSuffix), 0)
  }

  function CodePass(s: string, decode: string -> Result<string, string>, highlight: string -> string): string {
    ReplacePayloads(s, CodeOpen, CodeClose, CodeRender(decode, highlight), 0)
  }

  /** `renderPlaceholders`: HERO ALERT, HERO TIP, UPDATED, LINK, SCRIPT,
      HTML and CODEBLOCK, each pass over the output of the one before. A
      document without `{` is shown as it is. */
  function RenderPlaceholders(content: string, decode: string -> Result<string, string>,
                              highlight: string -> string, idSuffix: nat -> string): (r: string)
    ensures '{' !in content ==> r == content
  {
    var a := HeroAlertPass(content);
    var b := HeroTipPass(a);
    var c := UpdatedPass(b);
    var d := LinkPass(c);
    var e := ScriptPass(d);
    var f := HtmlPass(e, decode, idSuffix);
    var page := CodePass(f, decode, highlight);
    assert '{' !in content ==> page == content by {
      if '{' !in content {
        PassesKeepPlain(content, decode, highlight, idSuffix);
      }
    }
    page
  }

  // ---------------------------------------------------------------------
  // renderInnerPlaceholders

  /** A well-formed link becomes exactly its anchor. */
  lemma RenderInnerLink(text: string, url: string, rest: string)
    requires WellFormedLink(text, url)
    ensures RenderInner(LinkMarkup(LinkOpen, LinkClose, text, url) + rest)
         == InnerAnchor(text, url) + RenderInner(rest)
  {
    ReplaceLinksHead(LinkOpen, LinkClose, text, url, rest, InnerAnchor);
  }

  // ---------------------------------------------------------------------
  // One pass at a time

  /** A HERO ALERT block ends at the first END marker after it and becomes
      the alert wrapper around its inner-rendered, trimmed body. */
  lemma HeroAlertBlock(body: string, rest: string)
    requires NoOccurrenceBefore(body + HeroAlertClose + rest, HeroAlertClose, |body|)
    ensures HeroAlertPass(HeroAlertOpen + body + HeroAlertClose + rest) == HeroAlert(body) + HeroAlertPass(rest)
  {
    ReplaceBlocksHead(HeroAlertOpen, body, HeroAlertClose, rest, HeroAlert);
  }

  /** The same for a HERO TIP block. */
  lemma HeroTipBlock(body: string, rest: string)
    requires NoOccurrenceBefore(body + HeroTipClose + rest, HeroTipClose, |body|)
    ensures HeroTipPass(HeroTipOpen + body + HeroTipClose + rest) == HeroTip(body) + HeroTipPass(rest)
  {
    ReplaceBlocksHead(HeroTipOpen, body, HeroTipClose, rest, HeroTip);
  }

  /** The same for an UPDATED block. */
  lemma UpdatedBlock(body: string, rest: string)
    requires NoOccurrenceBefore(body + UpdatedClose + rest, UpdatedClose, |body|)
    ensures UpdatedPass(UpdatedOpen + body + UpdatedClose + rest) == Updated(body) + UpdatedPass(rest)
  {
    ReplaceBlocksHead(UpdatedOpen, body, UpdatedClose, rest, Updated);
  }

  /** The blanks around a block's body do not reach the wrapper. */
  lemma HeroAlertTrimmed(pre: string, m: string, post: string)
    requires AllSpace(pre) && AllSpace(post)
    requires m == [] || (!IsJsSpace(m[0]) && !IsJsSpace(m[|m| - 1]))
    requires !Contains(pre + m + post, LinkOpen + "[")
    ensures HeroAlert(pre + m + post) == HeroAlertHtml(m)
  {
    TrimPadded(pre, m, post);
  }

  /** A well-formed LINK becomes the outer anchor. */
  lemma LinkAnchor(text: string, url: string, rest: string)
    requires WellFormedLink(text, url)
    ensures LinkPass(LinkMarkup(LinkOpen, LinkClose, text, url) + rest) == OuterAnchor(text, url) + LinkPass(rest)
  {
    ReplaceLinksHead(LinkOpen, LinkClose, text, url, rest, OuterAnchor);
  }

  lemma ScriptRenderOrdinalFree()
    ensures OrdinalFree(ScriptRender())
  {
  }

  /** A SCRIPT placeholder is removed, whatever its payload decodes to. */
  lemma ScriptRemoved(lead: string, data: string, trail: string, rest: string)
    requires WellFormedPayload(lead, data, trail)
    ensures ScriptPass(PayloadMarkup(ScriptOpen, ScriptClose, lead, data, trail) + rest) == ScriptPass(rest)
  {
    ScriptRenderOrdinalFree();
    ReplacePayloadsHeadFree(ScriptOpen, ScriptClose, lead, data, trail, rest, ScriptRender());
  }

  /** The `k`-th HTML placeholder becomes its preview, or the error panel
      with the decoding error's message; the next one is numbered `k + 1`. */
  lemma HtmlPreviewed(lead: string, data: string, trail: string, rest: string,
                      decode: string -> Result<string, string>, idSuffix: nat -> string, k: nat)
    requires WellFormedPayload(lead, data, trail)
    ensures ReplacePayloads(PayloadMarkup(HtmlOpen, HtmlClose, lead, data, trail) + rest, HtmlOpen, HtmlClose, HtmlRender(decode, idSuffix), k)
         == HtmlPreview(decode(data), idSuffix(k)) + ReplacePayloads(rest, HtmlOpen, HtmlClose, HtmlRender(decode, idSuffix), k + 1)
  {
    ReplacePayloadsHead(HtmlOpen, HtmlClose, lead, data, trail, rest, HtmlRender(decode, idSuffix), k);
  }

  lemma CodeRenderOrdinalFree(decode: string -> Result<string, string>, highlight: string -> string)
    ensures OrdinalFree(CodeRender(decode, highlight))
  {
  }

  /** A CODEBLOCK placeholder becomes its code block. */
  lemma CodeRendered(lead: string, data: string, trail: string, rest: string,
                     decode: string -> Result<string, string>, highlight: string -> string)
    requires WellFormedPayload(lead, data, trail)
    ensures CodePass(PayloadMarkup(CodeOpen, CodeClose, lead, data, trail) + rest, decode, highlight)
         == CodeBlock(decode(data), highlight) + CodePass(rest, decode, highlight)
  {
    CodeRenderOrdinalFree(decode, highlight);
    ReplacePayloadsHeadFree(CodeOpen, CodeClose, lead, data, trail, rest, CodeRender(decode, highlight));
  }

  /** A CODEBLOCK placeholder whose payload does not decode becomes the
      fixed error block. */
  lemma CodeDecodeFailure(lead: string, data: string, trail: string, rest: string,
                          decode: string -> Result<string, string>, highlight: string -> string)
    requires WellFormedPayload(lead, data, trail) && decode(data).Err?
    ensures CodePass(PayloadMarkup(CodeOpen, CodeClose, lead, data, trail) + rest, decode, highlight)
         == CodeError + CodePass(rest, decode, highlight)
  {
    CodeRendered(lead, data, trail, rest, decode, highlight);
  }

  // ---------------------------------------------------------------------
  // The whole rendering

  /** Text without `{` is copied by every pass. */
  lemma PassesCopyPlain(x: string, y: string, decode: string -> Result<string, string>,
                        highlight: string -> string, idSuffix: nat -> string)
    requires '{' !in x
    ensures HeroAlertPass(x + y) == x + HeroAlertPass(y)
    ensures HeroTipPass(x + y) == x + HeroTipPass(y)
    ensures UpdatedPass(x + y) == x + UpdatedPass(y)
    ensures LinkPass(x + y) == x + LinkPass(y)
    ensures ScriptPass(x + y) == x + ScriptPass(y)
    ensures HtmlPass(x + y, decode, idSuffix) == x + HtmlPass(y, decode, idSuffix)
    ensures CodePass(x + y, decode, highlight) == x + CodePass(y, decode, highlight)
  {
    GuideMarkers();
    ReplaceBlocksPlainPrefix(x, y, HeroAlertOpen, HeroAlertClose, HeroAlert);
    ReplaceBlocksPlainPrefix(x, y, HeroTipOpen, HeroTipClose, HeroTip);
    ReplaceBlocksPlainPrefix(x, y, UpdatedOpen, UpdatedClose, Updated);
    ReplaceLinksPlainPrefix(x, y, LinkOpen, LinkClose, OuterAnchor);
    ReplacePayloadsPlainPrefix(x, y, ScriptOpen, ScriptClose, ScriptRender(), 0);
    ReplacePayloadsPlainPrefix(x, y, HtmlOpen, HtmlClose, HtmlRender(decode, idSuffix), 0);
    ReplacePayloadsPlainPrefix(x, y, CodeOpen, CodeClose, CodeRender(decode, highlight), 0);
  }

  /** Text without `{` before a document is kept in front of its rendering. */
  lemma RenderPlaceholdersPlainPrefix(x: string, y: string, decode: string -> Result<string, string>,
                                      highlight: string -> string, idSuffix: nat -> string)
    requires '{' !in x
    ensures RenderPlaceholders(x + y, decode, highlight, idSuffix) == x + RenderPlaceholders(y, decode, highlight, idSuffix)
  {
    var a := HeroAlertPass(y);
    var b := HeroTipPass(a);
    var c := UpdatedPass(b);
    var d := LinkPass(c);
    var e := ScriptPass(d);
    var f := HtmlPass(e, decode, idSuffix);
    PassesCopyPlain(x, y, decode, highlight, idSuffix);
    PassesCopyPlain(x, a, decode, highlight, idSuffix);
    PassesCopyPlain(x, b, decode, highlight, idSuffix);
    PassesCopyPlain(x, c, decode, highlight, idSuffix);
    PassesCopyPlain(x, d, decode, highlight, idSuffix);
    PassesCopyPlain(x, e, decode, highlight, idSuffix);
    PassesCopyPlain(x, f, decode, highlight, idSuffix);
  }

  /** Text without `{` is not changed by any pass. */
  lemma PassesKeepPlain(x: string, decode: string -> Result<string, string>,
                        highlight: string -> string, idSuffix: nat -> string)
    requires '{' !in x
    ensures HeroAlertPass(x) == x && HeroTipPass(x) == x && UpdatedPass(x) == x && LinkPass(x) == x
    ensures ScriptPass(x) == x && HtmlPass(x, decode, idSuffix) == x && CodePass(x, decode, highlight) == x
  {
    PassesCopyPlain(x, [], decode, highlight, idSuffix);
    assert x + [] == x;
  }

  /** Once the first pass leaves no `{`, the later passes change nothing. */
  lemma RenderAfterHeroAlert(x: string, decode: string -> Result<string, string>,
                             highlight: string -> string, idSuffix: nat -> string)
    requires '{' !in HeroAlertPass(x)
    ensures RenderPlaceholders(x, decode, highlight, idSuffix) == HeroAlertPass(x)
  {
    PassesKeepPlain(HeroAlertPass(x), decode, highlight, idSuffix);
  }

  /** The HERO ALERT pass renders a block whose body has no `{`. */
  lemma HeroAlertUnit(body: string, post: string)
    requires '{' !in body && '{' !in post
    ensures HeroAlertPass(HeroAlertOpen + body + HeroAlertClose + post) == HeroAlertHtml(Trim(body)) + post
  {
    NoOccurrenceInPlain(body, HeroAlertClose + post, HeroAlertClose);
    assert HeroAlertOpen + body + HeroAlertClose + post == HeroAlertOpen + body + (HeroAlertClose + post);
    HeroAlertBlock(body, post);
    ReplaceBlocksPlainPrefix(post, [], HeroAlertOpen, HeroAlertClose, HeroAlert);
    assert post + [] == post;
    NoHeadNoContains(body, LinkOpen + "[");
  }

  // ---------------------------------------------------------------------
  // Placeholders of one kind pass through the passes for the others

  /** Each pass's marker clashes with the markers of the later passes. */
  lemma HeroAlertClashes()
    ensures Clashless(HeroAlertOpen, HeroTipOpen) && Clashless(HeroAlertOpen, HeroTipClose)
    ensures Clashless(HeroAlertOpen, UpdatedOpen) && Clashless(HeroAlertOpen, UpdatedClose)
    ensures Clashless(HeroAlertOpen, LinkOpen) && Clashless(HeroAlertOpen, LinkClose)
    ensures Clashless(HeroAlertOpen, ScriptOpen) && Clashless(HeroAlertOpen, ScriptClose)
    ensures Clashless(HeroAlertOpen, HtmlOpen) && Clashless(HeroAlertOpen, HtmlClose)
    ensures Clashless(HeroAlertOpen, CodeOpen) && Clashless(HeroAlertOpen, CodeClose)
  {
    OpenOpenClash(HeroAlertOpen, HeroAlertName, HeroTipName, 5);
    OpenOpenClash(HeroAlertOpen, HeroAlertName, UpdatedName, 0);
    OpenOpenClash(HeroAlertOpen, HeroAlertName, LinkName, 0);
    OpenOpenClash(HeroAlertOpen, HeroAlertName, ScriptName, 0);
    OpenOpenClash(HeroAlertOpen, HeroAlertName, HtmlName, 1);
    OpenOpenClash(HeroAlertOpen, HeroAlertName, CodeName, 0);
    OpenEndClash(HeroAlertOpen, HeroAlertName, HeroTipName);
    OpenEndClash(HeroAlertOpen, HeroAlertName, UpdatedName);
    OpenEndClash(HeroAlertOpen, HeroAlertName, LinkName);
    OpenEndClash(HeroAlertOpen, HeroAlertName, ScriptName);
    OpenEndClash(HeroAlertOpen, HeroAlertName, HtmlName);
    OpenEndClash(HeroAlertOpen, HeroAlertName, CodeName);
  }

  lemma HeroTipClashes()
    ensures Clashless(HeroTipOpen, UpdatedOpen) && Clashless(HeroTipOpen, UpdatedClose)
    ensures Clashless(HeroTipOpen, LinkOpen) && Clashless(HeroTipOpen, LinkClose)
    ensures Clashless(HeroTipOpen, ScriptOpen) && Clashless(HeroTipOpen, ScriptClose)
    ensures Clashless(HeroTipOpen, HtmlOpen) && Clashless(HeroTipOpen, HtmlClose)
    ensures Clashless(HeroTipOpen, CodeOpen) && Clashless(HeroTipOpen, CodeClose)
  {
    OpenOpenClash(HeroTipOpen, HeroTipName, UpdatedName, 0);
    OpenOpenClash(HeroTipOpen, HeroTipName, LinkName, 0);
    OpenOpenClash(HeroTipOpen, HeroTipName, ScriptName, 0);
    OpenOpenClash(HeroTipOpen, HeroTipName, HtmlName, 1);
    OpenOpenClash(HeroTipOpen, HeroTipName, CodeName, 0);
    OpenEndClash(HeroTipOpen, HeroTipName, UpdatedName);
    OpenEndClash(HeroTipOpen, HeroTipName, LinkName);
    OpenEndClash(HeroTipOpen, HeroTipName, ScriptName);
    OpenEndClash(HeroTipOpen, HeroTipName, HtmlName);
    OpenEndClash(HeroTipOpen, HeroTipName, CodeName);
  }

  lemma UpdatedClashes()
    ensures Clashless(UpdatedOpen, LinkOpen) && Clashless(UpdatedOpen, LinkClose)
    ensures Clashless(UpdatedOpen, ScriptOpen) && Clashless(UpdatedOpen, ScriptClose)
    ensures Clashless(UpdatedOpen, HtmlOpen) && Clashless(UpdatedOpen, HtmlClose)
    ensures Clashless(UpdatedOpen, CodeOpen) && Clashless(UpdatedOpen, CodeClose)
  {
    OpenOpenClash(UpdatedOpen, UpdatedName, LinkName, 0);
    OpenOpenClash(UpdatedOpen, UpdatedName, ScriptName, 0);
    OpenOpenClash(UpdatedOpen, UpdatedName, HtmlName, 0);
    OpenOpenClash(UpdatedOpen, UpdatedName, CodeName, 0);
    OpenEndClash(UpdatedOpen, UpdatedName, LinkName);
    OpenEndClash(UpdatedOpen, UpdatedName, ScriptName);
    OpenEndClash(UpdatedOpen, UpdatedName, HtmlName);
    OpenEndClash(UpdatedOpen, UpdatedName, CodeName);
  }

  /** The LINK pass looks for its marker followed by `[`. */
  lemma LinkClashes()
    ensures Clashless(LinkOpen + "[", ScriptOpen) && Clashless(LinkOpen + "[", ScriptClose)
    ensures Clashless(LinkOpen + "[", HtmlOpen) && Clashless(LinkOpen + "[", HtmlClose)
    ensures Clashless(LinkOpen + "[", CodeOpen) && Clashless(LinkOpen + "[", CodeClose)
  {
    OpenOpenClash(LinkOpen + "[", LinkName, ScriptName, 0);
    OpenOpenClash(LinkOpen + "[", LinkName, HtmlName, 0);
    OpenOpenClash(LinkOpen + "[", LinkName, CodeName, 0);
    OpenEndClash(LinkOpen + "[", LinkName, ScriptName);
    OpenEndClash(LinkOpen + "[", LinkName, HtmlName);
    OpenEndClash(LinkOpen + "[", LinkName, CodeName);
  }

  lemma PayloadClashes()
    ensures Clashless(ScriptOpen, HtmlOpen) && Clashless(ScriptOpen, HtmlClose)
    ensures Clashless(ScriptOpen, CodeOpen) && Clashless(ScriptOpen, CodeClose)
    ensures Clashless(HtmlOpen, CodeOpen) && Clashless(HtmlOpen, CodeClose)
  {
    OpenOpenClash(ScriptOpen, ScriptName, HtmlName, 0);
    OpenOpenClash(ScriptOpen, ScriptName, CodeName, 0);
    OpenOpenClash(HtmlOpen, HtmlName, CodeName, 0);
    OpenEndClash(ScriptOpen, ScriptName, HtmlName);
    OpenEndClash(ScriptOpen, ScriptName, CodeName);
    OpenEndClash(HtmlOpen, HtmlName, CodeName);
  }

  /** A placeholder whose markers clash with a pass's marker goes through
      that pass unchanged, as does plain text after it. */
  lemma HeroAlertSkips(m1: string, body: string, m2: string, post: string)
    requires IsMarker(m1) && IsMarker(m2) && Clashless(HeroAlertOpen, m1) && Clashless(HeroAlertOpen, m2)
    requires '{' !in body && '{' !in post
    ensures HeroAlertPass(m1 + body + m2 + post) == m1 + body + m2 + post
  {
    GuideMarkers();
    ReplaceBlocksCopyUnit(m1, body, m2, post, HeroAlertOpen, HeroAlertClose, HeroAlert);
    ReplaceBlocksPlainPrefix(post, [], HeroAlertOpen, HeroAlertClose, HeroAlert);
    assert post + [] == post;
  }

  lemma HeroTipSkips(m1: string, body: string, m2: string, post: string)
    requires IsMarker(m1) && IsMarker(m2) && Clashless(HeroTipOpen, m1) && Clashless(HeroTipOpen, m2)
    requires '{' !in body && '{' !in post
    ensures HeroTipPass(m1 + body + m2 + post) == m1 + body + m2 + post
  {
    GuideMarkers();
    ReplaceBlocksCopyUnit(m1, body, m2, post, HeroTipOpen, HeroTipClose, HeroTip);
    ReplaceBlocksPlainPrefix(post, [], HeroTipOpen, HeroTipClose, HeroTip);
    assert post + [] == post;
  }

  lemma UpdatedSkips(m1: string, body: string, m2: string, post: string)
    requires IsMarker(m1) && IsMarker(m2) && Clashless(UpdatedOpen, m1) && Clashless(UpdatedOpen, m2)
    requires '{' !in body && '{' !in post
    ensures UpdatedPass(m1 + body + m2 + post) == m1 + body + m2 + post
  {
    GuideMarkers();
    ReplaceBlocksCopyUnit(m1, body, m2, post, UpdatedOpen, UpdatedClose, Updated);
    ReplaceBlocksPlainPrefix(post, [], UpdatedOpen, UpdatedClose, Updated);
    assert post + [] == post;
  }

  lemma LinkSkips(m1: string, body: string, m2: string, post: string)
    requires IsMarker(m1) && IsMarker(m2) && Clashless(LinkOpen + "[", m1) && Clashless(LinkOpen + "[", m2)
    requires '{' !in body && '{' !in post
    ensures LinkPass(m1 + body + m2 + post) == m1 + body + m2 + post
  {
    GuideMarkers();
    ReplaceLinksCopyUnit(m1, body, m2, post, LinkOpen, LinkClose, OuterAnchor);
    ReplaceLinksPlainPrefix(post, [], LinkOpen, LinkClose, OuterAnchor);
    assert post + [] == post;
  }

  lemma ScriptSkips(m1: string, body: string, m2: string, post: string)
    requires IsMarker(m1) && IsMarker(m2) && Clashless(ScriptOpen, m1) && Clashless(ScriptOpen, m2)
    requires '{' !in body && '{' !in post
    ensures ScriptPass(m1 + body + m2 + post) == m1 + body + m2 + post
  {
    GuideMarkers();
    ReplacePayloadsCopyUnit(m1, body, m2, post, ScriptOpen, ScriptClose, ScriptRender(), 0);
    ReplacePayloadsPlainPrefix(post, [], ScriptOpen, ScriptClose, ScriptRender(), 0);
    assert post + [] == post;
  }

  lemma HtmlSkips(m1: string, body: string, m2: string, post: string,
                  decode: string -> Result<string, string>, idSuffix: nat -> string)
    requires IsMarker(m1) && IsMarker(m2) && Clashless(HtmlOpen, m1) && Clashless(HtmlOpen, m2)
    requires '{' !in body && '{' !in post
    ensures HtmlPass(m1 + body + m2 + post, decode, idSuffix) == m1 + body + m2 + post
  {
    GuideMarkers();
    ReplacePayloadsCopyUnit(m1, body, m2, post, HtmlOpen, HtmlClose, HtmlRender(decode, idSuffix), 0);
    ReplacePayloadsPlainPrefix(post, [], HtmlOpen, HtmlClose, HtmlRender(decode, idSuffix), 0);
    assert post + [] == post;
  }

  /** A HERO ALERT block with plain text around it renders as the alert
      around its trimmed body, and nothing else changes. */
  lemma RenderHeroAlert(pre: string, body: string, post: string, decode: string -> Result<string, string>,
                        highlight: string -> string, idSuffix: nat -> string)
    requires '{' !in pre && '{' !in body && '{' !in post
    ensures RenderPlaceholders(pre + (HeroAlertOpen + body + HeroAlertClose + post), decode, highlight, idSuffix)
         == pre + (HeroAlertHtml(Trim(body)) + post)
  {
    var unit := HeroAlertOpen + body + HeroAlertClose + post;
    HeroAlertUnit(body, post);
    TrimKeepsOut(body, '{');
    HeroAlertHtmlPlain(Trim(body));
    RenderPlaceholdersPlainPrefix(pre, unit, decode, highlight, idSuffix);
    RenderAfterHeroAlert(unit, decode, highlight, idSuffix);
  }

  /** The HERO TIP pass renders a block whose body has no `{`. */
  lemma HeroTipUnit(body: string, post: string)
    requires '{' !in body && '{' !in post
    ensures HeroTipPass(HeroTipOpen + body + HeroTipClose + post) == HeroTipHtml(Trim(body)) + post
  {
    NoOccurrenceInPlain(body, HeroTipClose + post, HeroTipClose);
    assert HeroTipOpen + body + HeroTipClose + post == HeroTipOpen + body + (HeroTipClose + post);
    HeroTipBlock(body, post);
    ReplaceBlocksPlainPrefix(post, [], HeroTipOpen, HeroTipClose, HeroTip);
    assert post + [] == post;
    NoHeadNoContains(body, LinkOpen + "[");
  }

  lemma RenderAfterHeroTip(x: string, decode: string -> Result<string, string>,
                           highlight: string -> string, idSuffix: nat -> string)
    requires HeroAlertPass(x) == x && '{' !in HeroTipPass(x)
    ensures RenderPlaceholders(x, decode, highlight, idSuffix) == HeroTipPass(x)
  {
    PassesKeepPlain(HeroTipPass(x), decode, highlight, idSuffix);
  }

  /** A HERO TIP block with plain text around it renders as the tip around
      its trimmed body, and nothing else changes. */
  lemma RenderHeroTip(pre: string, body: string, post: string, decode: string -> Result<string, string>,
                      highlight: string -> string, idSuffix: nat -> string)
    requires '{' !in pre && '{' !in body && '{' !in post
    ensures RenderPlaceholders(pre + (HeroTipOpen + body + HeroTipClose + post), decode, highlight, idSuffix)
         == pre + (HeroTipHtml(Trim(body)) + post)
  {
    var unit := HeroTipOpen + body + HeroTipClose + post;
    GuideMarkers();
    HeroAlertClashes();
    HeroAlertSkips(HeroTipOpen, body, HeroTipClose, post);
    HeroTipUnit(body, post);
    TrimKeepsOut(body, '{');
    HeroTipHtmlPlain(Trim(body));
    RenderPlaceholdersPlainPrefix(pre, unit, decode, highlight, idSuffix);
    RenderAfterHeroTip(unit, decode, highlight, idSuffix);
  }

  /** An UPDATED block with plain text around it renders as the
      last-updated note around its trimmed body, and nothing else changes. */
  lemma UpdatedUnit(body: string, post: string)
    requires '{' !in body && '{' !in post
    ensures UpdatedPass(UpdatedOpen + body + UpdatedClose + post) == UpdatedHtml(Trim(body)) + post
  {
    NoOccurrenceInPlain(body, UpdatedClose + post, UpdatedClose);
    assert UpdatedOpen + body + UpdatedClose + post == UpdatedOpen + body + (UpdatedClose + post);
    UpdatedBlock(body, post);
    ReplaceBlocksPlainPrefix(post, [], UpdatedOpen, UpdatedClose, Updated);
    assert post + [] == post;
    NoHeadNoContains(body, LinkOpen + "[");
  }

  lemma RenderAfterUpdated(x: string, decode: string -> Result<string, string>,
                           highlight: string -> string, idSuffix: nat -> string)
    requires HeroAlertPass(x) == x && HeroTipPass(x) == x && '{' !in UpdatedPass(x)
    ensures RenderPlaceholders(x, decode, highlight, idSuffix) == UpdatedPass(x)
  {
    PassesKeepPlain(UpdatedPass(x), decode, highlight, idSuffix);
  }

  lemma RenderUpdated(pre: string, body: string, post: string, decode: string -> Result<string, string>,
                      highlight: string -> string, idSuffix: nat -> string)
    requires '{' !in pre && '{' !in body && '{' !in post
    ensures RenderPlaceholders(pre + (UpdatedOpen + body + UpdatedClose + post), decode, highlight, idSuffix)
         == pre + (UpdatedHtml(Trim(body)) + post)
  {
    var unit := UpdatedOpen + body + UpdatedClose + post;
    GuideMarkers();
    HeroAlertClashes();
    HeroTipClashes();
    HeroAlertSkips(UpdatedOpen, body, UpdatedClose, post);
    HeroTipSkips(UpdatedOpen, body, UpdatedClose, post);
    UpdatedUnit(body, post);
    TrimKeepsOut(body, '{');
    UpdatedHtmlPlain(Trim(body));
    RenderPlaceholdersPlainPrefix(pre, unit, decode, highlight, idSuffix);
    RenderAfterUpdated(unit, decode, highlight, idSuffix);
  }

  lemma RenderAfterLink(x: string, decode: string -> Result<string, string>,
                        highlight: string -> string, idSuffix: nat -> string)
    requires HeroAlertPass(x) == x && HeroTipPass(x) == x && UpdatedPass(x) == x && '{' !in LinkPass(x)
    ensures RenderPlaceholders(x, decode, highlight, idSuffix) == LinkPass(x)
  {
    PassesKeepPlain(LinkPass(x), decode, highlight, idSuffix);
  }

  /** A well-formed LINK with plain text around it renders as the outer
      anchor, and nothing else changes. */
  lemma RenderLink(pre: string, text: string, url: string, post: string, decode: string -> Result<string, string>,
                   highlight: string -> string, idSuffix: nat -> string)
    requires WellFormedLink(text, url)
    requires '{' !in pre && '{' !in text && '{' !in url && '{' !in post
    ensures RenderPlaceholders(pre + (LinkMarkup(LinkOpen, LinkClose, text, url) + post), decode, highlight, idSuffix)
         == pre + (OuterAnchor(text, url) + post)
  {
    var body := "[" + text + "](" + url + ")";
    var unit := LinkMarkup(LinkOpen, LinkClose, text, url) + post;
    LinkMarkupParts(LinkOpen, LinkClose, text, url, post);
    LinkBodyPlain(text, url);
    GuideMarkers();
    HeroAlertClashes();
    HeroTipClashes();
    UpdatedClashes();
    HeroAlertSkips(LinkOpen, body, LinkClose, post);
    HeroTipSkips(LinkOpen, body, LinkClose, post);
    UpdatedSkips(LinkOpen, body, LinkClose, post);
    LinkAnchor(text, url, post);
    PassesKeepPlain(post, decode, highlight, idSuffix);
    OuterAnchorPlain(text, url);
    RenderPlaceholdersPlainPrefix(pre, unit, decode, highlight, idSuffix);
    RenderAfterLink(unit, decode, highlight, idSuffix);
  }

  lemma RenderAfterScript(x: string, decode: string -> Result<string, string>,
                          highlight: string -> string, idSuffix: nat -> string)
    requires HeroAlertPass(x) == x && HeroTipPass(x) == x && UpdatedPass(x) == x && LinkPass(x) == x
    requires '{' !in ScriptPass(x)
    ensures RenderPlaceholders(x, decode, highlight, idSuffix) == ScriptPass(x)
  {
    PassesKeepPlain(ScriptPass(x), decode, highlight, idSuffix);
  }

  /** A SCRIPT placeholder with plain text around it disappears from the
      page, and nothing else changes. */
  lemma RenderScript(pre: string, lead: string, data: string, trail: string, post: string,
                     decode: string -> Result<string, string>, highlight: string -> string, idSuffix: nat -> string)
    requires WellFormedPayload(lead, data, trail)
    requires '{' !in pre && '{' !in post
    ensures RenderPlaceholders(pre + (PayloadMarkup(ScriptOpen, ScriptClose, lead, data, trail) + post), decode, highlight, idSuffix)
         == pre + post
  {
    var body := lead + data + trail;
    var unit := PayloadMarkup(ScriptOpen, ScriptClose, lead, data, trail) + post;
    PayloadMarkupParts(ScriptOpen, ScriptClose, lead, data, trail, post);
    PayloadPlain(lead, data, trail);
    GuideMarkers();
    HeroAlertClashes();
    HeroTipClashes();
    UpdatedClashes();
    LinkClashes();
    HeroAlertSkips(ScriptOpen, body, ScriptClose, post);
    HeroTipSkips(ScriptOpen, body, ScriptClose, post);
    UpdatedSkips(ScriptOpen, body, ScriptClose, post);
    LinkSkips(ScriptOpen, body, ScriptClose, post);
    ScriptRemoved(lead, data, trail, post);
    PassesKeepPlain(post, decode, highlight, idSuffix);
    RenderPlaceholdersPlainPrefix(pre, unit, decode, highlight, idSuffix);
    RenderAfterScript(unit, decode, highlight, idSuffix);
  }

  lemma RenderAfterHtml(x: string, decode: string -> Result<string, string>,
                        highlight: string -> string, idSuffix: nat -> string)
    requires HeroAlertPass(x) == x && HeroTipPass(x) == x && UpdatedPass(x) == x && LinkPass(x) == x
    requires ScriptPass(x) == x
    ensures RenderPlaceholders(x, decode, highlight, idSuffix) == CodePass(HtmlPass(x, decode, idSuffix), decode, highlight)
  {
  }

  /** The HTML pass turns the first HTML placeholder into its preview. */
  lemma HtmlUnit(lead: string, data: string, trail: string, post: string,
                 decode: string -> Result<string, string>, idSuffix: nat -> string)
    requires WellFormedPayload(lead, data, trail) && '{' !in post
    ensures HtmlPass(PayloadMarkup(HtmlOpen, HtmlClose, lead, data, trail) + post, decode, idSuffix)
         == HtmlPreview(decode(data), idSuffix(0)) + post
  {
    GuideMarkers();
    ReplacePayloadsLast(HtmlOpen, HtmlClose, lead, data, trail, post, HtmlRender(decode, idSuffix), 0);
  }

  /** The first HTML placeholder, with plain text around it, becomes its
      preview (or the error panel); the CODEBLOCK pass then still runs
      over the decoded HTML. */
  lemma RenderHtml(pre: string, lead: string, data: string, trail: string, post: string,
                   decode: string -> Result<string, string>, highlight: string -> string, idSuffix: nat -> string)
    requires WellFormedPayload(lead, data, trail)
    requires '{' !in pre && '{' !in post
    ensures RenderPlaceholders(pre + (PayloadMarkup(HtmlOpen, HtmlClose, lead, data, trail) + post), decode, highlight, idSuffix)
         == pre + CodePass(HtmlPreview(decode(data), idSuffix(0)) + post, decode, highlight)
  {
    var body := lead + data + trail;
    var unit := PayloadMarkup(HtmlOpen, HtmlClose, lead, data, trail) + post;
    PayloadMarkupParts(HtmlOpen, HtmlClose, lead, data, trail, post);
    PayloadPlain(lead, data, trail);
    GuideMarkers();
    HeroAlertClashes();
    HeroTipClashes();
    UpdatedClashes();
    LinkClashes();
    PayloadClashes();
    HeroAlertSkips(HtmlOpen, body, HtmlClose, post);
    HeroTipSkips(HtmlOpen, body, HtmlClose, post);
    UpdatedSkips(HtmlOpen, body, HtmlClose, post);
    LinkSkips(HtmlOpen, body, HtmlClose, post);
    ScriptSkips(HtmlOpen, body, HtmlClose, post);
    HtmlUnit(lead, data, trail, post, decode, idSuffix);
    RenderPlaceholdersPlainPrefix(pre, unit, decode, highlight, idSuffix);
    RenderAfterHtml(unit, decode, highlight, idSuffix);
  }

  lemma RenderAfterCode(x: string, decode: string -> Result<string, string>,
                        highlight: string -> string, idSuffix: nat -> string)
    requires HeroAlertPass(x) == x && HeroTipPass(x) == x && UpdatedPass(x) == x && LinkPass(x) == x
    requires ScriptPass(x) == x && HtmlPass(x, decode, idSuffix) == x
    ensures RenderPlaceholders(x, decode, highlight, idSuffix) == CodePass(x, decode, highlight)
  {
  }

  /** A CODEBLOCK placeholder with plain text around it becomes its code
      block (or the error block), and nothing else changes. */
  lemma RenderCode(pre: string, lead: string, data: string, trail: string, post: string,
                   decode: string -> Result<string, string>, highlight: string -> string, idSuffix: nat -> string)
    requires WellFormedPayload(lead, data, trail)
    requires '{' !in pre && '{' !in post
    ensures RenderPlaceholders(pre + (PayloadMarkup(CodeOpen, CodeClose, lead, data, trail) + post), decode, highlight, idSuffix)
         == pre + (CodeBlock(decode(data), highlight) + post)
  {
    var body := lead + data + trail;
    var unit := PayloadMarkup(CodeOpen, CodeClose, lead, data, trail) + post;
    PayloadMarkupParts(CodeOpen, CodeClose, lead, data, trail, post);
    PayloadPlain(lead, data, trail);
    GuideMarkers();
    HeroAlertClashes();
    HeroTipClashes();
    UpdatedClashes();
    LinkClashes();
    PayloadClashes();
    HeroAlertSkips(CodeOpen, body, CodeClose, post);
    HeroTipSkips(CodeOpen, body, CodeClose, post);
    UpdatedSkips(CodeOpen, body, CodeClose, post);
    LinkSkips(CodeOpen, body, CodeClose, post);
    ScriptSkips(CodeOpen, body, CodeClose, post);
    HtmlSkips(CodeOpen, body, CodeClose, post, decode, idSuffix);
    CodeRendered(lead, data, trail, post, decode, highlight);
    PassesKeepPlain(post, decode, highlight, idSuffix);
    RenderPlaceholdersPlainPrefix(pre, unit, decode, highlight, idSuffix);
    RenderAfterCode(unit, decode, highlight, idSuffix);
  }
}
