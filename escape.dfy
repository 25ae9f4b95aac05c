/** HTML entity escaping as the installation guide does it: `escapeForHTML`
    (five global replacements, `&` first) for the copy button's attribute,
    the three-replacement escape of a code block's display text, and the
    entity decoding a browser applies when it parses an attribute value or a
    textarea's contents, restricted to the five entities these escapes
    produce. */
module Escape {
  import opened Text

  /** The characters `escapeForHTML` rewrites. */
  predicate IsSpecial(c: char) {
    c == '&' || c == '"' || c == '\'' || c == '<' || c == '>'
  }

  predicate NoSpecials(s: string) {
    '&' !in s && '"' !in s && '\'' !in s && '<' !in s && '>' !in s
  }

  /** The entity each special character becomes. */
  function EscapeChar(c: char): (r: string)
    ensures IsSpecial(c) ==> |r| >= 4 && r[0] == '&'
    ensures !IsSpecial(c) ==> r == [c]
  {
    if c == '&' then "&amp;"
    else if c == '"' then "&quot;"
    else if c == '\'' then "&#39;"
    else if c == '<' then "&lt;"
    else if c == '>' then "&gt;"
    else [c]
  }

  /** Character-by-character escaping: the reference `escapeForHTML` is
      proved equal to. */
  function EscapeEach(s: string): string {
    if s == [] then [] else EscapeChar(s[0]) + EscapeEach(s[1..])
  }

  /** The passes of `escapeForHTML`, in order. */
  const HtmlPasses: seq<(char, string)> :=
    [('&', "&amp;"), ('"', "&quot;"), ('\'', "&#39;"), ('<', "&lt;"), ('>', "&gt;")]

  /** Since `&` goes first, no pass rewrites an entity an earlier pass
      wrote; and only `&` is written by the passes. */
  lemma HtmlPassesLayered()
    ensures Layered(HtmlPasses)
    ensures Erases(HtmlPasses, 1) && Erases(HtmlPasses, 2) && Erases(HtmlPasses, 3) && Erases(HtmlPasses, 4)
  {
    EntitiesSpelled();
    forall i | 0 <= i < |HtmlPasses|
      ensures MarkupFree(HtmlPasses[i].1)
    {
      EntitySpellingMarkupFree(HtmlPasses[i].1);
    }
  }

  /** The letters entities are spelled with: `&`, `#`, `;`, lower-case
      letters and digits. */
  predicate EntitySpelling(e: string) {
    forall k :: 0 <= k < |e| ==> e[k] == '&' || e[k] == '#' || e[k] == ';' || 'a' <= e[k] <= 'z' || '0' <= e[k] <= '9'
  }

  predicate MarkupFree(e: string) {
    '"' !in e && '\'' !in e && '<' !in e && '>' !in e
  }

  lemma EntitySpellingMarkupFree(e: string)
    requires EntitySpelling(e)
    ensures MarkupFree(e)
  {
  }

  lemma EntitiesSpelled()
    ensures forall i :: 0 <= i < |HtmlPasses| ==> EntitySpelling(HtmlPasses[i].1)
  {
    assert EntitySpelling("&amp;");
    assert EntitySpelling("&quot;");
    assert EntitySpelling("&#39;");
    assert EntitySpelling("&lt;");
    assert EntitySpelling("&gt;");
  }

  /** The per-character table agrees with the passes. */
  lemma HtmlChainChar(c: char)
    ensures ChainChar(c, HtmlPasses) == EscapeChar(c)
  {
  }

  /** `escapeForHTML`: `&`, `"`, `'`, `<` and `>` replaced in that order.
      The escaped text holds none of the four markup characters, so it can
      stand inside a quoted attribute. */
  function EscapeForHTML(s: string): (r: string)
    ensures '"' !in r && '\'' !in r && '<' !in r && '>' !in r
  {
    HtmlPassesLayered();
    ReplaceChainRemoves(s, HtmlPasses, 1);
    ReplaceChainRemoves(s, HtmlPasses, 2);
    ReplaceChainRemoves(s, HtmlPasses, 3);
    ReplaceChainRemoves(s, HtmlPasses, 4);
    ReplaceChain(s, HtmlPasses)
  }

  /** Text without any of the five characters is not changed. */
  lemma EscapeForHTMLPlain(s: string)
    requires NoSpecials(s)
    ensures EscapeForHTML(s) == s
  {
    ReplaceChainUntouched(s, HtmlPasses);
  }

  /** The chain of replacements escapes each character independently. */
  lemma {:induction false} EscapeForHTMLIsPerChar(s: string)
    ensures EscapeForHTML(s) == EscapeEach(s)
  {
    if s != [] {
      assert s == [s[0]] + s[1..];
      ReplaceChainAppend([s[0]], s[1..], HtmlPasses);
      HtmlPassesLayered();
      ReplaceChainChar(s[0], HtmlPasses);
      HtmlChainChar(s[0]);
      EscapeForHTMLIsPerChar(s[1..]);
    }
  }

  /** The entity starting at the head of `s`, if one of the five does: the
      character it stands for and its length. */
  function EntityAt(s: string): (r: Option<(char, nat)>)
    ensures r.Some? ==> IsSpecial(r.value.0) && r.value.1 <= |s| && s[..r.value.1] == EscapeChar(r.value.0)
    ensures r.Some? <==> (exists c :: IsSpecial(c) && EscapeChar(c) <= s)
  {
    if "&amp;" <= s then Some(('&', 5))
    else if "&quot;" <= s then Some(('"', 6))
    else if "&#39;" <= s then Some(('\'', 5))
    else if "&lt;" <= s then Some(('<', 4))
    else if "&gt;" <= s then Some(('>', 4))
    else
      assert forall c :: IsSpecial(c) ==> !(EscapeChar(c) <= s);
      None
  }

  /** Entity decoding, one left-to-right scan: each of the five entities
      becomes its character; everything else is kept. */
  function Unescape(s: string): (r: string)
    ensures |r| <= |s|
    decreases |s|
  {
    if s == [] then []
    else match EntityAt(s)
      case Some((c, n)) => [c] + Unescape(s[n..])
      case None => [s[0]] + Unescape(s[1..])
  }

  /** Text without an ampersand is not changed by decoding. */
  lemma {:induction false} UnescapePlain(s: string)
    requires '&' !in s
    ensures Unescape(s) == s
  {
    if s != [] {
      assert s[0] != '&';
      assert EntityAt(s).None?;
      UnescapePlain(s[1..]);
      assert [s[0]] + s[1..] == s;
    }
  }

  /** An entity followed by anything is read as that entity. */
  lemma EntityAtEscape(c: char, rest: string)
    requires IsSpecial(c)
    ensures EntityAt(EscapeChar(c) + rest) == Some((c, |EscapeChar(c)|))
  {
    var s := EscapeChar(c) + rest;
    assert s[..|EscapeChar(c)|] == EscapeChar(c);
    if c == '"' {
      assert s[1] == 'q';
    } else if c == '\'' {
      assert s[1] == '#';
    } else if c == '<' {
      assert s[1] == 'l';
    } else if c == '>' {
      assert s[1] == 'g';
    }
  }

  /** Decoding reads back the character an entity stands for. */
  lemma UnescapeEscapeChar(c: char, rest: string)
    ensures Unescape(EscapeChar(c) + rest) == [c] + Unescape(rest)
  {
    var s := EscapeChar(c) + rest;
    var e := EscapeChar(c);
    assert s[..|e|] == e && s[|e|..] == rest;
    if IsSpecial(c) {
      EntityAtEscape(c, rest);
    } else {
      assert s[0] == c;
      assert EntityAt(s).None?;
    }
  }

  /** Decoding undoes the per-character escape. */
  lemma {:induction false} UnescapeEscapeEach(s: string)
    ensures Unescape(EscapeEach(s)) == s
  {
    if s != [] {
      UnescapeEscapeChar(s[0], EscapeEach(s[1..]));
      UnescapeEscapeEach(s[1..]);
      assert [s[0]] + s[1..] == s;
    }
  }

  /** Because `&` is replaced first, mapping the five entities back restores
      the original text. */
  lemma EscapeRoundTrip(s: string)
    ensures Unescape(EscapeForHTML(s)) == s
  {
    EscapeForHTMLIsPerChar(s);
    UnescapeEscapeEach(s);
  }

  /** Escaping is injective: different texts never share an attribute value. */
  lemma EscapeInjective(s: string, t: string)
    requires EscapeForHTML(s) == EscapeForHTML(t)
    ensures s == t
  {
    EscapeRoundTrip(s);
    EscapeRoundTrip(t);
  }

  // ---------------------------------------------------------------------
  // The escape of a code block's display text

  /** The entity a code block's display text uses for each character. */
  function CodeEscapeChar(c: char): (r: string)
    ensures r == (if c == '&' || c == '<' || c == '>' then EscapeChar(c) else [c])
  {
    if c == '&' then "&amp;" else if c == '<' then "&lt;" else if c == '>' then "&gt;" else [c]
  }

  function CodeEscapeEach(s: string): string {
    if s == [] then [] else CodeEscapeChar(s[0]) + CodeEscapeEach(s[1..])
  }

  /** The passes of a code block's display escape, in order. */
  const CodePasses: seq<(char, string)> := [('&', "&amp;"), ('<', "&lt;"), ('>', "&gt;")]

  lemma CodePassesLayered()
    ensures Layered(CodePasses) && Erases(CodePasses, 1) && Erases(CodePasses, 2)
  {
  }

  lemma CodeChainChar(c: char)
    ensures ChainChar(c, CodePasses) == CodeEscapeChar(c)
  {
  }

  /** The display escape of a code block: `&`, `<` and `>` replaced in that
      order. The displayed code holds no raw `<` or `>`, which is all the
      highlighting passes after the escape rely on. */
  function CodeEscape(s: string): (r: string)
    ensures '<' !in r && '>' !in r
  {
    CodePassesLayered();
    ReplaceChainRemoves(s, CodePasses, 1);
    ReplaceChainRemoves(s, CodePasses, 2);
    ReplaceChain(s, CodePasses)
  }

  /** Code without `&`, `<` and `>` is displayed as it is. */
  lemma CodeEscapePlain(s: string)
    requires '&' !in s && '<' !in s && '>' !in s
    ensures CodeEscape(s) == s
  {
    ReplaceChainUntouched(s, CodePasses);
  }

  lemma {:induction false} CodeEscapeIsPerChar(s: string)
    ensures CodeEscape(s) == CodeEscapeEach(s)
  {
    if s != [] {
      assert s == [s[0]] + s[1..];
      ReplaceChainAppend([s[0]], s[1..], CodePasses);
      CodePassesLayered();
      ReplaceChainChar(s[0], CodePasses);
      CodeChainChar(s[0]);
      CodeEscapeIsPerChar(s[1..]);
    }
  }

  lemma {:induction false} UnescapeCodeEscapeEach(s: string)
    ensures Unescape(CodeEscapeEach(s)) == s
  {
    if s != [] {
      UnescapeEscapeChar(s[0], CodeEscapeEach(s[1..]));
      UnescapeCodeEscapeEach(s[1..]);
      assert [s[0]] + s[1..] == s;
    }
  }

  /** The displayed code, before highlighting, reads back as the decoded
      text. */
  lemma CodeEscapeRoundTrip(s: string)
    ensures Unescape(CodeEscape(s)) == s
  {
    CodeEscapeIsPerChar(s);
    UnescapeCodeEscapeEach(s);
  }

  // ---------------------------------------------------------------------
  // The copy button

  /** What the copy button puts on the clipboard, as written: the browser
      decodes the entities of the `data-code` attribute when it parses the
      rendered HTML, `getAttribute` returns that decoded value, and
      `decodeHTML` decodes it a second time. The result is the
      entity-decoding of the code rather than the code. */
  function CopiedAsWritten(code: string): (r: string)
    ensures r == Unescape(code)
  {
    EscapeRoundTrip(code);
    Unescape(Unescape(EscapeForHTML(code)))
  }

  /** Code that itself starts with an entity is not copied as displayed:
      the entity comes out as its character, so the code `&lt;` is copied
      as `<`. */
  lemma CopiedAsWrittenAltersEntities(c: char, rest: string)
    requires IsSpecial(c)
    ensures CopiedAsWritten(EscapeChar(c) + rest) == [c] + Unescape(rest)
    ensures CopiedAsWritten(EscapeChar(c) + rest) != EscapeChar(c) + rest
  {
    UnescapeEscapeChar(c, rest);
  }

  /** What the copy button puts on the clipboard when the attribute value
      is decoded once, by the HTML parser only. */
  function Copied(code: string): (r: string)
    ensures r == code
  {
    EscapeRoundTrip(code);
    Unescape(EscapeForHTML(code))
  }
}
