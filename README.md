# SquareHero Hub: the text-rendering layer, in Dafny

The SquareHero Hub scripts run inside a Squarespace site. They turn published
Google Docs and Sheets into help pages. This project models the logic of the
two core scripts and proves properties of that model:

- `installation-guide.js` (the installation guide), covering:
  - `escapeForHTML`;
  - `renderInnerPlaceholders`;
  - the seven ordered passes of `renderPlaceholders`;
  - the routing rule of `handleDocLink`;
  - the external-link test on `href`;
  - the row collection and index sort of `handleSpreadsheetLink`.
- `sh-hub.js` (the hub), covering:
  - `cleanGoogleDocUrl` and the `decodeURIComponent` it relies on;
  - the hub's own `renderPlaceholders` and `renderInnerPlaceholders`, with the GDOC anchor;
  - the plugin status label of `addPlugin`;
  - the row loops of `loadPluginContent` and `loadAccordionContent`.

Modules, one per concern:

| file | module | what it holds |
|---|---|---|
| text.dfy | Text | ECMAScript whitespace and `trim`, `indexOf`/`includes`/`split`, single-character global replacement and chains of them, the decimal form of an index |
| escape.dfy | Escape | `escapeForHTML`, the code block's display escape, five-entity decoding, the copy button |
| markup.dfy | Markup | the three regular-expression shapes as scanners: lazy blocks, `[text](url)` links, whitespace-padded Base64 payloads; global replacement with each |
| guide_render.dfy | GuideRender | the guide's templates, passes and `renderPlaceholders` |
| guide_routing.dfy | GuideRouting | `handleDocLink` and the external-link test |
| spreadsheet.dfy | Spreadsheet | the `forEach` over sheet rows, the in-place sort of fetched sections, the assembled page |
| uri.dfy | Uri | `decodeURIComponent` (ECMAScript Decode with UTF-8 validation per RFC 3629), `encodeURIComponent` as its partner |
| hub_links.dfy | HubLinks | `cleanGoogleDocUrl` |
| hub_render.dfy | HubRender | the hub's alert boxes, GDOC anchors and passes |
| hub_sheets.dfy | HubSheets | the status label, the plugin loop, the accordion loop |

Modelling choices:

- **Regex replacement.**
  - Each global `replace` with a fixed-shape regular expression is a scanner. At each position it either matches and writes the rendering, or copies one character.
  - The block pattern `OPEN([\s\S]*?)CLOSE` is lazy, so a block ends at the first CLOSE after its OPEN.
  - The link pattern `OPEN\[([^\]]+)\]\(([^)]+)\)CLOSE` has greedy runs. Those runs cannot stop early.
  - The payload pattern `OPEN\s*([\w+/=]+)\s*CLOSE` is read as three greedy runs. The blank class, the payload class and the first character of CLOSE (`{`) are disjoint, so backtracking cannot find another match.
  - Every marker starts with `{{`. A text without `{` therefore passes every pass unchanged.
  - The end-to-end lemmas state what a whole `renderPlaceholders` does to one placeholder surrounded by such text. Pages with several placeholders are covered pass by pass (the `Head`, `Skip` and `Skips` lemmas), not end to end.
- **Strings.** Strings are sequences of Unicode scalar values, not UTF-16 code units.
- **Side effects as parameters.**
  - Base64 decoding (`decodeURIComponent(escape(atob(...)))`) is the parameter `decode`. Its `Err` case is the `catch` branch.
  - The CODEBLOCK highlighting is the parameter `highlight`.
  - The `Math.random` suffix of an HTML container id is the parameter `idSuffix`, indexed by the match's ordinal.
- **Fetched content.** What `fetchGoogleDocContent` returns for a link is the parameter `fetched`.
- **CSV rows.** `Papa.parse` output arrives already parsed. With `header: true`, a row's `Title` and `Link` cells are options.
- **The sort.**
  - `results.sort` is modelled as an in-place insertion sort on an array, specified by sortedness and permutation.
  - In the source the sort changes nothing. `fetchPromises` is filled in row order (installation-guide.js:388-401), and `Promise.all` resolves to its results in that same order (installation-guide.js:405-406).
  - The model states both facts. Sections that already arrive in row order stay where they are. Sections given in any other order are still sorted back into row order, which is a stronger claim than the source needs.
- **The hub's sheet loops.** They are methods that grow a sequence, one element per kept row. Each is proved equal to a specification function, and lemmas characterise that function.

The hub's accordion sheets are fetched independently, and each one fills its own container (sh-hub.js:193), row by row in sheet order. So no sort is needed there.

## Model

| member | source | states |
|---|---|---|
| Text.Trim | installation-guide.js:151 | the trimmed text neither starts nor ends with ECMAScript whitespace and is no longer than the input |
| Text.TrimPadded | installation-guide.js:151 | whitespace runs around a text that neither starts nor ends with whitespace are exactly what `trim` removes |
| Text.TrimIdempotent | installation-guide.js:151 | trimming twice is trimming once |
| Text.IndexOf | sh-hub.js:276 | `indexOf`: the result is an occurrence and no occurrence comes before it; `None` exactly when there is no occurrence |
| Text.FirstPiece | sh-hub.js:276 | `split(p)[0]`: a prefix without an occurrence of `p`, followed by `p` or the end of the text |
| Text.FirstPieceAt | sh-hub.js:276 | the first piece ends exactly at the first occurrence of the separator |
| Text.ReplaceChar | installation-guide.js:133 | one global single-character `replace`: a text without the character is unchanged, and the character is gone unless its replacement contains it |
| Text.ReplaceChainRemoves | installation-guide.js:132-137 | after a chain of replacements, a pass's character is gone when neither its own replacement nor a later one contains it |
| Text.Decimal | installation-guide.js:390 | the decimal form of an index is made of digits |
| Text.DecimalInjective | installation-guide.js:390 | distinct indices have distinct decimal forms |
| Escape.HtmlPassesLayered | installation-guide.js:133-137 | since `&` goes first, no pass rewrites an entity an earlier pass wrote, and the characters of the later four passes appear in no entity |
| Escape.EscapeForHTML | installation-guide.js:131-138 | `escapeForHTML`'s output contains no `"`, `'`, `<` or `>` |
| Escape.EscapeForHTMLPlain | installation-guide.js:131-138 | `escapeForHTML` is the identity on text free of `& " ' < >` |
| Escape.EscapeForHTMLIsPerChar | installation-guide.js:131-138 | the five global passes equal replacing each character by its own entity |
| Escape.EntityAt | installation-guide.js:125-129 | an entity is recognised at the head exactly when one of the five entities starts the text |
| Escape.Unescape | installation-guide.js:125-129 | entity decoding never lengthens a text |
| Escape.UnescapePlain | installation-guide.js:125-129 | decoding leaves text without `&` unchanged |
| Escape.EscapeRoundTrip | installation-guide.js:131-138 | decoding the five entities after `escapeForHTML` restores the original text |
| Escape.EscapeInjective | installation-guide.js:131-138 | distinct texts escape to distinct texts |
| Escape.CodeEscape | installation-guide.js:249-252 | the code block's display text holds no raw `<` or `>` |
| Escape.CodeEscapePlain | installation-guide.js:249-252 | the display escape is the identity on text free of `&`, `<` and `>` |
| Escape.CodeEscapeIsPerChar | installation-guide.js:249-252 | the three passes equal replacing each character by its own entity |
| Escape.CodeEscapeRoundTrip | installation-guide.js:249-252 | decoding the display text restores the code |
| Escape.CopiedAsWritten | installation-guide.js:608 | as written, the copy button copies the entity-decoding of the code, not the code |
| Escape.CopiedAsWrittenAltersEntities | installation-guide.js:608 | code that starts with one of the five entities is copied with that entity turned into its character |
| Escape.Copied | installation-guide.js:608 | decoding the attribute once, by the HTML parser only, copies exactly the code |
| Markup.RunUntil | installation-guide.js:141 | the greedy `[^c]*` run: no stop character inside, and the stop character or the end right after |
| Markup.SpaceFrom | installation-guide.js:172 | the greedy `\s*` run: all blanks, followed by a non-blank or the end |
| Markup.PayloadFrom | installation-guide.js:172 | the greedy `[\w+/=]*` run: all payload characters, followed by another character or the end |
| Markup.CopyUnmarked | installation-guide.js:141 | a replacement that copies every character not starting its marker leaves a text without that marker unchanged |
| Markup.MatchBlock | installation-guide.js:149 | a block match spans OPEN, a body without CLOSE, and CLOSE; there is none exactly when the text does not start with OPEN or has no CLOSE after it |
| Markup.BlockMatchesMarkup | installation-guide.js:149 | a block matches with exactly the body before the first CLOSE after OPEN |
| Markup.ReplaceBlocksHead | installation-guide.js:149-152 | a block at the head is replaced by its rendering, then the scan goes on after CLOSE |
| Markup.ReplaceBlocksSkip | installation-guide.js:149 | a text not starting with OPEN keeps its first character |
| Markup.ReplaceBlocks | installation-guide.js:149 | global replacement with the block pattern leaves a text without OPEN unchanged; ReplaceBlocksHead and ReplaceBlocksSkip give the rest of its behaviour |
| Markup.MatchUrl | installation-guide.js:141 | the url run is non-empty and free of `)`, and `)` and CLOSE follow it |
| Markup.MatchTextUrl | installation-guide.js:141 | the bracketed text and url of a match are well-formed and spelled as `text](url)CLOSE` |
| Markup.MatchLink | installation-guide.js:141 | a link match is exactly the markup of its text and url |
| Markup.LinkMatchesMarkup | installation-guide.js:141 | well-formed link markup matches with exactly its text and url |
| Markup.ReplaceLinksHead | installation-guide.js:141-143 | a link at the head is replaced by its rendering, then the scan goes on after it |
| Markup.ReplaceLinksSkip | installation-guide.js:141 | a text not starting with `OPEN[` keeps its first character |
| Markup.ReplaceLinks | installation-guide.js:141 | global replacement with the link pattern leaves a text without `OPEN[` unchanged; ReplaceLinksHead and ReplaceLinksSkip give the rest of its behaviour |
| Markup.MatchPayload | installation-guide.js:172 | a payload match covers at least OPEN and stays within the text |
| Markup.MatchPayloadSound | installation-guide.js:172 | a payload match is OPEN, blanks, a non-empty payload, blanks and CLOSE |
| Markup.MatchPayloadAt | installation-guide.js:172 | the pieces of a well-formed payload placeholder are the ones matched |
| Markup.PayloadMatchesMarkup | installation-guide.js:172 | a well-formed payload placeholder matches with exactly its blanks and payload |
| Markup.ReplacePayloadsHead | installation-guide.js:172 | a payload placeholder at the head is replaced by the rendering of its payload |
| Markup.ReplacePayloadsSkip | installation-guide.js:172 | a text not starting with OPEN keeps its first character |
| Markup.ReplacePayloadsNoMarker | installation-guide.js:172 | a text without OPEN is unchanged |
| Markup.ReplacePayloadsOrdinalFree | installation-guide.js:172-207 | when a rendering ignores the match ordinal, the numbering does not change the result |
| GuideRender.RenderInner | installation-guide.js:140-145 | `renderInnerPlaceholders` returns text without a LINK marker unchanged |
| GuideRender.RenderInnerLink | installation-guide.js:140-145 | a well-formed LINK becomes `<a href="url" target="_blank">text</a>` |
| GuideRender.HeroAlertBlock | installation-guide.js:149-152 | a HERO ALERT block up to its first END marker is replaced by the alert box around its inner-rendered, trimmed body |
| GuideRender.HeroTipBlock | installation-guide.js:155-158 | the same for HERO TIP |
| GuideRender.UpdatedBlock | installation-guide.js:161-164 | the same for UPDATED with the last-updated box |
| GuideRender.HeroAlertTrimmed | installation-guide.js:149-152 | blank padding around a HERO ALERT body does not reach the box |
| GuideRender.LinkAnchor | installation-guide.js:167-169 | the LINK pass writes the anchor with `rel="noopener noreferrer"` |
| GuideRender.ScriptRemoved | installation-guide.js:172-207 | a SCRIPT placeholder is replaced by nothing, whatever the decoder does |
| GuideRender.HtmlPreviewed | installation-guide.js:210-241 | an HTML placeholder becomes the preview container of its decoded payload, or the error panel |
| GuideRender.CodeRendered | installation-guide.js:244-290 | a CODEBLOCK placeholder becomes the code block built from its decoded payload |
| GuideRender.CodeDecodeFailure | installation-guide.js:283-289 | a CODEBLOCK whose payload fails to decode becomes the fixed error block |
| GuideRender.PassesCopyPlain | installation-guide.js:147-293 | each of the seven passes copies a text without `{` in front of anything |
| GuideRender.PassesKeepPlain | installation-guide.js:147-293 | each of the seven passes leaves a text without `{` unchanged |
| GuideRender.RenderPlaceholders | installation-guide.js:147-293 | `renderPlaceholders` leaves a text without `{` unchanged |
| GuideRender.RenderPlaceholdersPlainPrefix | installation-guide.js:147-293 | a prefix without `{` is kept in front of the rendering of the rest |
| GuideRender.HeroAlertSkips | installation-guide.js:149 | the HERO ALERT pass leaves the other placeholders alone |
| GuideRender.HeroTipSkips | installation-guide.js:155 | the HERO TIP pass leaves the later placeholders alone |
| GuideRender.UpdatedSkips | installation-guide.js:161 | the UPDATED pass leaves the later placeholders alone |
| GuideRender.LinkSkips | installation-guide.js:167 | the LINK pass leaves the payload placeholders alone |
| GuideRender.ScriptSkips | installation-guide.js:172 | the SCRIPT pass leaves the HTML and CODEBLOCK placeholders alone |
| GuideRender.HtmlSkips | installation-guide.js:210 | the HTML pass leaves the CODEBLOCK placeholder alone |
| GuideRender.RenderHeroAlert | installation-guide.js:147-164 | in a whole page holding one HERO ALERT and no other `{`, the placeholder becomes its box and the text around it is kept |
| GuideRender.RenderHeroTip | installation-guide.js:147-164 | the same for one HERO TIP |
| GuideRender.RenderUpdated | installation-guide.js:147-164 | the same for one UPDATED |
| GuideRender.RenderLink | installation-guide.js:147-169 | in a whole page holding one well-formed LINK and no other `{`, the LINK becomes its anchor and the text around it is kept |
| GuideRender.RenderScript | installation-guide.js:172-207 | in a whole page holding one SCRIPT placeholder and no other `{`, the placeholder disappears and the text around it is kept |
| GuideRender.RenderHtml | installation-guide.js:210-241 | in a whole page holding one HTML placeholder and no other `{`, the placeholder becomes its preview (`HtmlPreview`), which only the CODEBLOCK pass still sees |
| GuideRender.RenderCode | installation-guide.js:244-290 | in a whole page holding one CODEBLOCK placeholder and no other `{`, the placeholder becomes its code block (`CodeBlock`) and the text around it is kept |
| GuideRouting.RouteDocLink | installation-guide.js:428-446 | a URL not starting with `http` gets the error message; one with both `spreadsheets` and `output=csv` goes to the spreadsheet path; every other one to the single-doc path |
| GuideRouting.RouteFetchesHttpOnly | installation-guide.js:428-446 | a URL is fetched exactly when it starts with `http`, and then as given |
| GuideRouting.RoutePublishedSheet | installation-guide.js:434-435 | an `http` URL with `spreadsheets` then `output=csv` takes the spreadsheet path |
| GuideRouting.RouteWithoutCsvIsDoc | installation-guide.js:434-445 | an `http` URL without `output=csv` is fetched as one document |
| GuideRouting.InPageLinksStay | installation-guide.js:337 | a missing or empty href, or one starting with `#`, `javascript:` or `mailto:`, is not external |
| GuideRouting.IsExternalHref | installation-guide.js:337 | an href starting with `http` is external; InPageLinksStay gives the cases that are not |
| Spreadsheet.CollectRows | installation-guide.js:385-403 | the loop builds the anchor bar inside its `div` and the pending fetches, row by row in row order |
| Spreadsheet.AnchorsStep | installation-guide.js:388-391 | a row adds its anchor exactly when it has a non-empty Title and Link |
| Spreadsheet.PendingStep | installation-guide.js:388-400 | a row starts a fetch exactly when it has a non-empty Title and Link |
| Spreadsheet.PendingSound | installation-guide.js:388-401 | fetches are in increasing row order, and each belongs to a qualifying row with that row's Title and Link |
| Spreadsheet.PendingComplete | installation-guide.js:388-401 | every qualifying row has a fetch |
| Spreadsheet.AnchorsMatchPending | installation-guide.js:388-401 | the anchor bar lists one anchor per fetch, in the same order |
| Spreadsheet.AnchorIdInjective | installation-guide.js:390 | distinct rows get distinct `doc-<index>` ids |
| Spreadsheet.RowOrder | installation-guide.js:395-398 | the k-th section in row order wraps the document of the k-th fetch in its `doc-<index>` div |
| Spreadsheet.RowOrderSorted | installation-guide.js:407 | the row order is sorted by index, and its indices are distinct |
| Spreadsheet.JoinContentsAppend | installation-guide.js:408 | `join('')` over two runs of sections is the join of the first run followed by the join of the second |
| Spreadsheet.SectionsUpToStep | installation-guide.js:388-401 | each row adds to the joined sections its own `doc-<index>` section when it has a non-empty Title and Link, and nothing otherwise |
| Spreadsheet.SortByIndex | installation-guide.js:407 | sorting in place leaves the sections sorted by index and a permutation of what they were |
| Spreadsheet.InsertLast | installation-guide.js:407 | one step of the sort extends the sorted prefix by one section and permutes the array |
| Spreadsheet.SortedUnique | installation-guide.js:407 | two sorted arrangements of the same sections with distinct indices are equal |
| Spreadsheet.SortRestoresRowOrder | installation-guide.js:405-408 | whatever order the fetches complete in, sorting gives the row order |
| Spreadsheet.AssemblePage | installation-guide.js:405-409 | the page is the anchor bar followed by the sorted sections, joined; when the results are any permutation of the qualifying rows' sections, the page is the anchor bar followed by those sections in row order; results already in row order are left unchanged |
| Spreadsheet.SpreadsheetPageInRowOrder | installation-guide.js:388-409 | any sorted permutation of the qualifying rows' sections is exactly those sections in row order |
| Uri.Utf8RoundTrip | sh-hub.js:276 | decoding the UTF-8 encoding of a scalar value gives it back |
| Uri.DecodeUriComponent | sh-hub.js:276 | `decodeURIComponent` fails only with a URIError, and only on a text containing `%` |
| Uri.DecodePlain | sh-hub.js:276 | a text without `%` decodes to itself |
| Uri.DecodePlainPrefix | sh-hub.js:276 | a prefix without `%` is kept in front of the decoding of the rest |
| Uri.MalformedEscapeThrows | sh-hub.js:276 | a `%` at the end, or one not followed by a hexadecimal digit, throws a URIError |
| Uri.LoneContinuationThrows | sh-hub.js:276 | an escape of a UTF-8 continuation octet that starts a sequence throws a URIError |
| Uri.EncodeUriComponent | sh-hub.js:276 | the encoding that a redirect target carries contains no `&` or `=` |
| Uri.DecodeEncode | sh-hub.js:276 | decoding an encoded text gives it back |
| HubLinks.CleanGoogleDocUrl | sh-hub.js:274-280 | a URL without `https://www.google.com/url?q=` is returned unchanged; only a redirect URL can throw, and then with a URIError |
| HubLinks.QueryAfterPage | sh-hub.js:276 | in a redirect URL, the first `q=` is the redirect page's own |
| HubLinks.TargetBeforeAmp | sh-hub.js:276 | the two splits cut a target free of `=` and `&` out of the text before the next `&` |
| HubLinks.CleanRedirect | sh-hub.js:274-280 | a redirect whose target has no `=` or `&`, followed by further parameters, cleans to the percent-decoding of the target |
| HubLinks.CleanBareRedirect | sh-hub.js:274-280 | the same with nothing after the target |
| HubLinks.CleanEncodedRedirect | sh-hub.js:274-280 | a redirect around an `encodeURIComponent`-encoded address cleans back to that address |
| HubLinks.CleanMalformedRedirect | sh-hub.js:276 | a redirect target with a malformed escape throws a URIError |
| HubRender.HubInner | sh-hub.js:333-344 | the hub's `renderInnerPlaceholders` returns text with neither a LINK nor a GDOC marker unchanged |
| HubRender.HubInnerLink | sh-hub.js:335-338 | a well-formed LINK becomes the anchor that opens in a new tab |
| HubRender.HubInnerGdoc | sh-hub.js:339-342 | a well-formed GDOC passes the LINK pass and becomes `<a href="#" class="doc-link" data-doc-url="url">text</a>` |
| HubRender.HubPassesCopyPlain | sh-hub.js:307-344 | each of the hub's four passes copies a text without `{` in front of anything |
| HubRender.HubRenderPlaceholders | sh-hub.js:307-331 | the hub's `renderPlaceholders` leaves a text without `{` unchanged |
| HubRender.HubRenderPlainPrefix | sh-hub.js:307-331 | a prefix without `{` is kept in front of the rendering of the rest |
| HubRender.HubHeroAlertUnit | sh-hub.js:309-318 | a HERO ALERT block becomes the indented alert box around its trimmed body |
| HubRender.HubHeroTipUnit | sh-hub.js:319-328 | the same for HERO TIP |
| HubRender.TipSkipsAlertPass | sh-hub.js:309 | the HERO ALERT pass leaves a HERO TIP block alone |
| HubRender.HeroPassesSkipLinks | sh-hub.js:309-328 | the HERO passes leave a LINK or a GDOC alone |
| HubRender.HubRenderHeroAlert | sh-hub.js:307-331 | in a whole page holding one HERO ALERT and no other `{`, the placeholder becomes its box and the text around it is kept |
| HubRender.HubRenderHeroTip | sh-hub.js:307-331 | the same for one HERO TIP |
| HubRender.HubRenderLink | sh-hub.js:329 | in a whole page holding one well-formed LINK, outside the HERO blocks, and no other `{`, the LINK becomes its anchor |
| HubRender.HubRenderGdoc | sh-hub.js:329 | in a whole page holding one well-formed GDOC, outside the HERO blocks, and no other `{`, the GDOC becomes its in-hub anchor |
| HubRender.HubHeroAlertLink | sh-hub.js:309-318 | a LINK inside a HERO ALERT is rendered before the body is trimmed and boxed |
| HubSheets.Cell | sh-hub.js:248 | a destructured cell is present exactly when the row is long enough, and is then that cell |
| HubSheets.DropHeader | sh-hub.js:245 | `slice(1)` keeps every row after the first, in order |
| HubSheets.StatusBadge | sh-hub.js:134-135 | the label is `enabled`/`Enabled` exactly when the status is the text `true`, and `disabled`/`Disabled` otherwise |
| HubSheets.OnlyTrueEnables | sh-hub.js:134-135 | other spellings and a missing attribute give the disabled label |
| HubSheets.FirstMeta | sh-hub.js:250 | the meta tag found for a name is the first one with that name, and one is found exactly when the name is listed |
| HubSheets.PluginFor | sh-hub.js:248-252 | a plugin entry carries the row's name, display name and help link, and the badge of the first tag of that name |
| HubSheets.PluginsStep | sh-hub.js:247-253 | a row adds an entry exactly when its first cell names a meta tag on the page |
| HubSheets.LoadPlugins | sh-hub.js:245-254 | the loop adds the entries of the rows after the header, in sheet order |
| HubSheets.KeptExactly | sh-hub.js:247-253 | the kept rows are exactly the rows naming a tag on the page, in increasing order |
| HubSheets.KeptCount | sh-hub.js:247-253 | one entry is added per kept row |
| HubSheets.PluginAt | sh-hub.js:247-253 | the k-th entry is the entry of the k-th kept row |
| HubSheets.PluginsOfKept | sh-hub.js:245-254 | the entries are exactly those of the kept rows, in order |
| HubSheets.PluginBadges | sh-hub.js:249-252 | every entry names a listed plugin and shows its own tag's status |
| HubSheets.BuildAccordion | sh-hub.js:191-210 | each row after the header becomes exactly one entry, in row order, with its link and title |

## Left out

- DOM reading and writing are not modelled: `innerHTML`, `createElement`, `appendChild`, class toggles, `displayContent`, `displayHelpContent`, loaders, the accordion UI and the click handlers. The model stops at the strings and sequences handed to them.
- `fetch`, promise chaining, `setTimeout` and console logging are effects. Fetched documents are the parameter `fetched`. A failed fetch (the `catch` that shows "Failed to load content.") is not modelled.
- `Papa.parse` is third-party code. Its rows are inputs.
- `DOMParser`, the bold-class detection and the rewriting of external anchors in `fetchGoogleDocContent` (installation-guide.js:307-366) are DOM work. Only the line-337 test on `href` is modelled.
- `atob` and `decodeURIComponent(escape(...))` on Base64 payloads are the parameter `decode`. A decoding failure is its `Err` case, and the HTML error panel quotes that error's message.
- The injected script element, its `DOMContentLoaded` wrapper and its `Math.random` id are side effects. The SCRIPT pass is modelled by what it leaves in the page: nothing.
- The CODEBLOCK highlighting regexes (installation-guide.js:253-272) are the parameter `highlight`. The model proves only that their input holds no raw `<` or `>`.
- Escape.Unescape: decodes only the five entities `escapeForHTML` writes, while a browser's `decodeHTML` decodes every named and numeric entity. Its round-trip lemmas are stated for text produced by the escapes.
- Strings are Unicode scalar values, not UTF-16 code units. `decodeURIComponent` returns one character where JavaScript returns a surrogate pair. `encodeURIComponent`'s URIError on a lone surrogate cannot arise.
- HubLinks.CleanGoogleDocUrl: a `null` attribute, which would throw a TypeError in `includes`, is not modelled. Its argument is a string.
- HubSheets.FirstMeta: finds the tag by name equality. `document.querySelector` throws on a name that is not a valid CSS string, for example one holding `"`, and that case is not modelled.
- HubSheets.PluginFor: keeps `displayName` and `helpDocUrl` as options. The DOM's conversion of a missing cell to the text `undefined` in `textContent`/`setAttribute` is not modelled.
- The hub's `renderFooter` appended after rendering is fixed text outside the render functions.
- Scroll progress, the clipboard API and the gradient SVG are floating-point layout and browser APIs.

## Findings

| source | as written | input that shows it | evidently intended | confidence | as-written member | corrected member |
|---|---|---|---|---|---|---|
| installation-guide.js:277, installation-guide.js:608 | `data-code` holds `escapeForHTML(code)`. The HTML parser decodes the attribute once, then `copyToClipboard` decodes it again with `decodeHTML`, so the clipboard receives the entity-decoding of the code | the code `&lt;` is copied as `<` | the clipboard receives the decoded code exactly as displayed | not executed | Escape.CopiedAsWrittenAltersEntities | Escape.Copied |
