/** The three shapes of placeholder both scripts recognise, each scanned by
    hand exactly as its regular expression matches at one position, and the
    global `String.prototype.replace` loop that rewrites every match from
    left to right, resuming after each match and copying unmatched
    characters unchanged.

    - a block `OPEN([\s\S]*?)CLOSE`: the body runs to the first CLOSE;
    - a link `OPEN\[([^\]]+)\]\(([^)]+)\)CLOSE`: a non-empty text free of
      `]` and a non-empty url free of `)`;
    - a payload `OPEN\s*([\w+/=]+)\s*CLOSE`: a non-empty run of word and
      Base64 characters between optional whitespace. */
module Markup {
  import opened Text

  // ---------------------------------------------------------------------
  // Greedy runs of one character class

  /** `[^stop]*` read greedily: the length of the run before the first `stop`. */
  function RunUntil(t: string, stop: char): (n: nat)
    ensures n <= |t|
    ensures forall k :: 0 <= k < n ==> t[k] != stop
    ensures n < |t| ==> t[n] == stop
  {
    if t != [] && t[0] != stop then 1 + RunUntil(t[1..], stop) else 0
  }

  /** The run ends exactly at the first `stop`. */
  lemma {:induction false} RunUntilExact(t: string, stop: char, n: nat)
    requires n < |t| && t[n] == stop
    requires forall k :: 0 <= k < n ==> t[k] != stop
    ensures RunUntil(t, stop) == n
  {
    if n > 0 {
      RunUntilExact(t[1..], stop, n - 1);
    }
  }

  /** `\s*` read greedily from position `i` of `s`: where the run ends. */
  function SpaceFrom(s: string, i: nat): (j: nat)
    requires i <= |s|
    ensures i <= j <= |s| && AllSpace(s[i..j])
    ensures j < |s| ==> !IsJsSpace(s[j])
    decreases |s| - i
  {
    if i < |s| && IsJsSpace(s[i]) then
      var j := SpaceFrom(s, i + 1);
      assert s[i..j] == [s[i]] + s[i + 1..j];
      j
    else i
  }

  /** The whitespace run ends exactly at the first other character. */
  lemma {:induction false} SpaceFromExact(s: string, i: nat, j: nat)
    requires i <= j <= |s| && (j < |s| ==> !IsJsSpace(s[j]))
    requires AllSpace(s[i..j])
    ensures SpaceFrom(s, i) == j
    decreases j - i
  {
    if i < j {
      assert s[i..j][0] == s[i] && s[i + 1..j] == s[i..j][1..];
      SpaceFromExact(s, i + 1, j);
    }
  }

  /** A character of `[\w+/=]`: a word character or one of `+ / =`. */
  predicate IsPayloadChar(c: char) {
    ('A' <= c <= 'Z') || ('a' <= c <= 'z') || ('0' <= c <= '9') || c == '_' || c == '+' || c == '/' || c == '='
  }

  predicate AllPayloadChars(data: string) {
    forall k {:trigger IsPayloadChar(data[k])} :: 0 <= k < |data| ==> IsPayloadChar(data[k])
  }

  /** `[\w+/=]*` read greedily from position `i` of `s`. */
  function PayloadFrom(s: string, i: nat): (j: nat)
    requires i <= |s|
    ensures i <= j <= |s| && AllPayloadChars(s[i..j])
    ensures j < |s| ==> !IsPayloadChar(s[j])
    decreases |s| - i
  {
    if i < |s| && IsPayloadChar(s[i]) then
      var j := PayloadFrom(s, i + 1);
      assert s[i..j] == [s[i]] + s[i + 1..j];
      j
    else i
  }

  /** The payload run ends exactly at the first other character. */
  lemma {:induction false} PayloadFromExact(s: string, i: nat, j: nat)
    requires i <= j < |s| && !IsPayloadChar(s[j])
    requires AllPayloadChars(s[i..j])
    ensures PayloadFrom(s, i) == j
    decreases j - i
  {
    if i < j {
      assert s[i..j][0] == s[i] && s[i + 1..j] == s[i..j][1..];
      PayloadFromExact(s, i + 1, j);
    }
  }

  /** A slice splits at any point inside it. */
  lemma SplitAt(t: string, i: nat, j: nat, k: nat)
    requires i <= j <= k <= |t|
    ensures t[i..k] == t[i..j] + t[j..k]
  {
  }

  /** A character other than the first of `p` cannot start `p`, so a text
      without that character holds no occurrence of `p`. */
  lemma NoHeadNoContains(t: string, p: string)
    requires p != [] && p[0] !in t
    ensures !Contains(t, p)
  {
    forall j | 0 <= j <= |t|
      ensures !(p <= t[j..])
    {
      if j < |t| {
        assert t[j..][0] == t[j];
      }
    }
  }

  // ---------------------------------------------------------------------
  // The copying half of a global replace

  /** `f` copies one character wherever `p` does not start, as every global
      replace below does. */
  ghost predicate CopiesUnless(f: string -> string, p: string) {
    forall s :: s != [] && !(p <= s) ==> f(s) == [s[0]] + f(s[1..])
  }

  /** Text that cannot start `p` goes through unchanged. */
  lemma {:induction false} CopyPrefix(f: string -> string, p: string, x: string, y: string)
    requires CopiesUnless(f, p) && p != [] && p[0] !in x
    ensures f(x + y) == x + f(y)
  {
    if x != [] {
      var s := x + y;
      assert s[0] == x[0] && !(p <= s);
      assert s[1..] == x[1..] + y;
      CopyPrefix(f, p, x[1..], y);
      assert [x[0]] + x[1..] == x;
    } else {
      assert x + y == y;
    }
  }

  /** A text in which `p` does not occur comes back unchanged. */
  lemma {:induction false} CopyUnmarked(f: string -> string, p: string, t: string)
    requires CopiesUnless(f, p) && f([]) == [] && !Contains(t, p)
    ensures f(t) == t
    decreases |t|
  {
    if t != [] {
      assert !(p <= t);
      NotContainsTail(t, p);
      CopyUnmarked(f, p, t[1..]);
      assert [t[0]] + t[1..] == t;
    }
  }

  /** A marker of the scripts: `{{`, then text without `{`. */
  predicate IsMarker(m: string) {
    |m| >= 3 && m[0] == '{' && m[1] == '{' && '{' !in m[2..]
  }

  /** Neither of two texts is a prefix of the other: they differ at some
      position both have. */
  predicate Clashless(p: string, m: string) {
    !(p <= m) && !(m <= p)
  }

  /** The opening and the closing marker of a placeholder named `name`:
      `{{ name }}` and `{{ END name }}`. */
  function OpenMarker(name: string): string {
    "{{ " + name + " }}"
  }

  function EndMarker(name: string): string {
    "{{ END " + name + " }}"
  }

  lemma NamedMarkers(name: string)
    requires '{' !in name
    ensures IsMarker(OpenMarker(name)) && IsMarker(EndMarker(name)) && IsMarker(OpenMarker(name) + "[")
  {
    assert OpenMarker(name)[2..] == " " + name + " }}";
    assert EndMarker(name)[2..] == " END " + name + " }}";
    assert (OpenMarker(name) + "[")[2..] == " " + name + " }}[";
  }

  /** An opening marker clashes with every closing marker when its name
      does not start with `E`. */
  lemma OpenEndClash(p: string, name: string, other: string)
    requires p == OpenMarker(name) || p == OpenMarker(name) + "["
    requires name != [] && name[0] != 'E'
    ensures Clashless(p, EndMarker(other))
  {
    ClashAt(p, EndMarker(other), 3);
  }

  /** Two opening markers clash when their names differ at a position both
      have. */
  lemma OpenOpenClash(p: string, name: string, other: string, i: nat)
    requires p == OpenMarker(name) || p == OpenMarker(name) + "["
    requires i < |name| && i < |other| && name[i] != other[i]
    ensures Clashless(p, OpenMarker(other))
  {
    assert p[3 + i] == name[i];
    ClashAt(p, OpenMarker(other), 3 + i);
  }

  /** Two texts that differ at a position both have clash. */
  lemma ClashAt(p: string, m: string, i: nat)
    requires i < |p| && i < |m| && p[i] != m[i]
    ensures Clashless(p, m)
  {
    if |p| <= |m| {
      assert m[..|p|][i] == m[i];
    }
    if |m| <= |p| {
      assert p[..|m|][i] == p[i];
    }
  }

  /** A pattern that differs from a marker matches neither at the marker's
      first brace nor at its second. */
  lemma MarkerNotAt(p: string, m: string, y: string)
    requires IsMarker(p) && IsMarker(m) && Clashless(p, m)
    ensures !(p <= m + y) && !(p <= (m + y)[1..])
  {
    var s := m + y;
    if |p| <= |m| {
      assert s[..|p|] == m[..|p|];
    } else if |p| <= |s| {
      assert s[..|p|][..|m|] == m;
    }
    assert m[2] in m[2..];
    assert s[1..][1] == m[2] != '{' == p[1];
  }

  /** A marker that differs from the pattern's start is copied unchanged:
      no match can start at either of its braces, and none inside it. */
  lemma CopyMarker(f: string -> string, p: string, m: string, y: string)
    requires CopiesUnless(f, p) && IsMarker(p) && IsMarker(m) && Clashless(p, m)
    ensures f(m + y) == m + f(y)
  {
    var s := m + y;
    MarkerNotAt(p, m, y);
    assert f(s) == [s[0]] + f(s[1..]);
    var t := s[1..];
    assert f(t) == [t[0]] + f(t[1..]);
    assert t[1..] == m[2..] + y;
    CopyPrefix(f, p, m[2..], y);
    assert m == [s[0]] + [t[0]] + m[2..];
  }

  /** A text `p` cannot occur before position `|x|` in `x + y` when its
      first character is not in `x`. */
  lemma NoOccurrenceInPlain(x: string, y: string, p: string)
    requires p != [] && p[0] !in x
    ensures NoOccurrenceBefore(x + y, p, |x|)
  {
    forall j | 0 <= j < |x| ensures !(p <= (x + y)[j..]) {
      assert (x + y)[j..][0] == x[j];
    }
  }

  // ---------------------------------------------------------------------
  // Blocks: OPEN([\s\S]*?)CLOSE

  datatype Block = Block(body: string, len: nat)

  /** The lazy block pattern tried at the start of `s`. */
  function MatchBlock(s: string, open: string, close: string): (r: Option<Block>)
    ensures r.Some? ==> r.value.len <= |s| && s[..r.value.len] == open + r.value.body + close
    ensures r.Some? ==> NoOccurrenceBefore(s[|open|..], close, |r.value.body|)
    ensures r.None? <==> !(open <= s) || !Contains(s[|open|..], close)
  {
    if !(open <= s) then None
    else match IndexOf(s[|open|..], close)
      case None => None
      case Some(i) =>
        BlockSlices(s, open, close, i);
        Some(Block(s[|open|..][..i], |open| + i + |close|))
  }

  /** A CLOSE found `i` characters after OPEN ends the block's text. */
  lemma BlockSlices(s: string, open: string, close: string, i: nat)
    requires open <= s && i + |close| <= |s| - |open| && close <= s[|open|..][i..]
    ensures s[..|open| + i + |close|] == open + s[|open|..][..i] + close
  {
    var n := |open| + i + |close|;
    SplitAt(s, 0, |open|, n);
    SplitAt(s, |open|, |open| + i, n);
    assert s[|open|..|open| + i] == s[|open|..][..i];
    assert s[|open| + i..n] == s[|open|..][i..][..|close|];
  }

  /** `s.replace(/OPEN([\s\S]*?)CLOSE/g, (_, body) => render(body))`. */
  function ReplaceBlocks(s: string, open: string, close: string, render: string -> string): (r: string)
    requires open != []
    ensures !Contains(s, open) ==> r == s
    decreases |s|
  {
    match MatchBlock(s, open, close)
    case Some(b) => render(b.body) + ReplaceBlocks(s[b.len..], open, close, render)
    case None =>
      if s == [] then []
      else
        NotContainsTail(s, open);
        assert [s[0]] + s[1..] == s;
        [s[0]] + ReplaceBlocks(s[1..], open, close, render)
  }

  /** A block whose body holds no earlier CLOSE matches with exactly that
      body: the match ends at the first CLOSE after OPEN. */
  lemma BlockMatchesMarkup(open: string, body: string, close: string, rest: string)
    requires NoOccurrenceBefore(body + close + rest, close, |body|)
    ensures MatchBlock(open + body + close + rest, open, close)
         == Some(Block(body, |open| + |body| + |close|))
  {
    var t := body + (close + rest);
    var s := open + t;
    AppendAssoc4(open, body, close, rest);
    AppendAssoc(body, close, rest);
    PrefixRest(open, t);
    PrefixRest(body, close + rest);
    PrefixRest(close, rest);
    IndexOfAt(t, close, |body|);
    BlockAfterOpen(s, open, close, |body|);
    var m := MatchBlock(s, open, close);
    assert m.value == Block(body, |open| + |body| + |close|);
  }

  /** After OPEN, the block runs to the first CLOSE. */
  lemma BlockAfterOpen(s: string, open: string, close: string, i: nat)
    requires open <= s && IndexOf(s[|open|..], close) == Some(i)
    ensures MatchBlock(s, open, close).Some?
    ensures MatchBlock(s, open, close).value.body == s[|open|..][..i]
    ensures MatchBlock(s, open, close).value.len == |open| + i + |close|
  {
  }

  /** Each block is replaced by its rendering and scanning resumes after it. */
  lemma ReplaceBlocksHead(open: string, body: string, close: string, rest: string, render: string -> string)
    requires open != []
    requires NoOccurrenceBefore(body + close + rest, close, |body|)
    ensures ReplaceBlocks(open + body + close + rest, open, close, render)
         == render(body) + ReplaceBlocks(rest, open, close, render)
  {
    var s := open + body + close + rest;
    BlockMatchesMarkup(open, body, close, rest);
    assert s[|open| + |body| + |close|..] == rest;
  }

  /** Where no block starts, one character is copied. */
  lemma ReplaceBlocksSkip(s: string, open: string, close: string, render: string -> string)
    requires open != [] && s != [] && !(open <= s)
    ensures ReplaceBlocks(s, open, close, render) == [s[0]] + ReplaceBlocks(s[1..], open, close, render)
  {
    assert MatchBlock(s, open, close).None?;
  }

  /** Text that cannot start a block is copied unchanged. */
  lemma ReplaceBlocksPlainPrefix(x: string, y: string, open: string, close: string, render: string -> string)
    requires open != [] && open[0] !in x
    ensures ReplaceBlocks(x + y, open, close, render) == x + ReplaceBlocks(y, open, close, render)
  {
    var f := s => ReplaceBlocks(s, open, close, render);
    forall s | s != [] && !(open <= s)
      ensures f(s) == [s[0]] + f(s[1..])
    {
      ReplaceBlocksSkip(s, open, close, render);
    }
    CopyPrefix(f, open, x, y);
  }

  /** Another marker is copied unchanged. */
  lemma ReplaceBlocksMarker(m: string, y: string, open: string, close: string, render: string -> string)
    requires IsMarker(open) && IsMarker(m) && Clashless(open, m)
    ensures ReplaceBlocks(m + y, open, close, render) == m + ReplaceBlocks(y, open, close, render)
  {
    var f := s => ReplaceBlocks(s, open, close, render);
    forall s | s != [] && !(open <= s)
      ensures f(s) == [s[0]] + f(s[1..])
    {
      ReplaceBlocksSkip(s, open, close, render);
    }
    CopyMarker(f, open, m, y);
  }

  /** Markup of another kind, two markers around text without `{`, is
      copied unchanged. */
  lemma ReplaceBlocksCopyUnit(m1: string, body: string, m2: string, y: string,
                              open: string, close: string, render: string -> string)
    requires IsMarker(open) && IsMarker(m1) && IsMarker(m2) && Clashless(open, m1) && Clashless(open, m2)
    requires '{' !in body
    ensures ReplaceBlocks(m1 + body + m2 + y, open, close, render) == m1 + body + m2 + ReplaceBlocks(y, open, close, render)
  {
    var r := ReplaceBlocks(y, open, close, render);
    AppendAssoc4(m1, body, m2, y);
    AppendAssoc4(m1, body, m2, r);
    ReplaceBlocksMarker(m2, y, open, close, render);
    ReplaceBlocksPlainPrefix(body, m2 + y, open, close, render);
    ReplaceBlocksMarker(m1, body + (m2 + y), open, close, render);
  }

  // ---------------------------------------------------------------------
  // Links: OPEN\[([^\]]+)\]\(([^)]+)\)CLOSE

  datatype Link = Link(text: string, url: string, len: nat)

  function LinkMarkup(open: string, close: string, text: string, url: string): string {
    open + ("[" + (text + ("](" + (url + (")" + close)))))
  }

  /** A link's markup is its opening marker, the bracketed text and url,
      and its closing marker. */
  lemma LinkMarkupParts(open: string, close: string, text: string, url: string, rest: string)
    ensures LinkMarkup(open, close, text, url) + rest == open + ("[" + text + "](" + url + ")") + close + rest
  {
  }

  lemma LinkBodyPlain(text: string, url: string)
    requires '{' !in text && '{' !in url
    ensures '{' !in "[" + text + "](" + url + ")"
  {
  }

  /** What `[^\]]+` and `[^)]+` accept. */
  predicate WellFormedLink(text: string, url: string) {
    text != [] && ']' !in text && url != [] && ')' !in url
  }

  /** `([^)]+)\)CLOSE` at the start of `t`: the url and the length read.
      The url run is greedy and cannot stop early, since only `)` may
      follow it. */
  function MatchUrl(t: string, close: string): (r: Option<(string, nat)>)
    ensures r.Some? ==> r.value.1 <= |t| && r.value.0 != [] && ')' !in r.value.0
    ensures r.Some? ==> t[..r.value.1] == r.value.0 + (")" + close)
  {
    var m := RunUntil(t, ')');
    if m == 0 || m >= |t| || !(close <= t[m + 1..]) then None
    else
      var k := m + 1 + |close|;
      assert t[..k] == t[..m] + (")" + close) by {
        SplitAt(t, 0, m, k);
        SplitAt(t, m, m + 1, k);
        assert t[m..m + 1] == ")";
        assert t[m + 1..k] == close;
      }
      Some((t[..m], k))
  }

  /** `([^\]]+)\]\(` followed by the url part, at the start of `t`. */
  function MatchTextUrl(t: string, close: string): (r: Option<Link>)
    ensures r.Some? ==> r.value.len <= |t| && WellFormedLink(r.value.text, r.value.url)
    ensures r.Some? ==> t[..r.value.len] == r.value.text + ("](" + (r.value.url + (")" + close)))
  {
    var n := RunUntil(t, ']');
    if n == 0 || n + 1 >= |t| || t[n + 1] != '(' then None
    else match MatchUrl(t[n + 2..], close)
      case None => None
      case Some((url, k)) =>
        var e := n + 2 + k;
        assert t[..e] == t[..n] + ("](" + (url + (")" + close))) by {
          SplitAt(t, 0, n, e);
          SplitAt(t, n, n + 2, e);
          assert t[n..n + 2] == "](";
          assert t[n + 2..e] == t[n + 2..][..k];
        }
        Some(Link(t[..n], url, e))
  }

  /** The link pattern tried at the start of `s`. */
  function MatchLink(s: string, open: string, close: string): (r: Option<Link>)
    ensures r.Some? ==> r.value.len <= |s| && WellFormedLink(r.value.text, r.value.url)
    ensures r.Some? ==> s[..r.value.len] == LinkMarkup(open, close, r.value.text, r.value.url)
  {
    var a := |open| + 1;
    if !(open + "[" <= s) then None
    else match MatchTextUrl(s[a..], close)
      case None => None
      case Some(l) =>
        var e := a + l.len;
        assert s[..e] == LinkMarkup(open, close, l.text, l.url) by {
          SplitAt(s, 0, |open|, e);
          SplitAt(s, |open|, a, e);
          assert s[..|open|] == open && s[|open|..a] == "[";
          assert s[a..e] == s[a..][..l.len];
        }
        Some(Link(l.text, l.url, e))
  }

  /** `s.replace(/OPEN\[([^\]]+)\]\(([^)]+)\)CLOSE/g, (_, text, url) => render(text, url))`. */
  function ReplaceLinks(s: string, open: string, close: string, render: (string, string) -> string): (r: string)
    ensures !Contains(s, open + "[") ==> r == s
    decreases |s|
  {
    match MatchLink(s, open, close)
    case Some(l) => render(l.text, l.url) + ReplaceLinks(s[l.len..], open, close, render)
    case None =>
      if s == [] then []
      else
        NotContainsTail(s, open + "[");
        assert [s[0]] + s[1..] == s;
        [s[0]] + ReplaceLinks(s[1..], open, close, render)
  }

  lemma UrlMatches(url: string, close: string, rest: string)
    requires url != [] && ')' !in url
    ensures MatchUrl(url + (")" + (close + rest)), close) == Some((url, |url| + 1 + |close|))
  {
    var t := url + (")" + (close + rest));
    assert t[..|url|] == url && t[|url|] == ')';
    RunUntilExact(t, ')', |url|);
    assert t[|url| + 1..] == close + rest;
  }

  lemma TextUrlMatches(text: string, url: string, close: string, rest: string)
    requires WellFormedLink(text, url)
    ensures MatchTextUrl(text + ("](" + (url + (")" + (close + rest)))), close)
         == Some(Link(text, url, |text| + 2 + |url| + 1 + |close|))
  {
    var u := url + (")" + (close + rest));
    var t := text + ("](" + u);
    var n := |text|;
    assert t[..n] == text && t[n] == ']' && t[n + 1] == '(';
    RunUntilExact(t, ']', n);
    assert t[n + 2..] == u;
    UrlMatches(url, close, rest);
  }

  /** A well-formed link matches with exactly its text and url. */
  lemma LinkMatchesMarkup(open: string, close: string, text: string, url: string, rest: string)
    requires WellFormedLink(text, url)
    ensures MatchLink(LinkMarkup(open, close, text, url) + rest, open, close)
         == Some(Link(text, url, |LinkMarkup(open, close, text, url)|))
  {
    var t := text + ("](" + (url + (")" + (close + rest))));
    LinkMarkupAppend(open, close, text, url, rest);
    LinkAfterOpen(open, t);
    TextUrlMatches(text, url, close, rest);
  }

  lemma LinkAfterOpen(open: string, t: string)
    ensures var s := open + ("[" + t);
            open + "[" <= s && s[|open| + 1..] == t
  {
    var s := open + ("[" + t);
    assert s == (open + "[") + t;
  }

  lemma LinkMarkupAppend(open: string, close: string, text: string, url: string, rest: string)
    ensures LinkMarkup(open, close, text, url) + rest == open + ("[" + (text + ("](" + (url + (")" + (close + rest))))))
  {
    assert (")" + close) + rest == ")" + (close + rest);
    assert (url + (")" + close)) + rest == url + (")" + (close + rest));
    assert ("](" + (url + (")" + close))) + rest == "](" + (url + (")" + (close + rest)));
    assert (text + ("](" + (url + (")" + close)))) + rest == text + ("](" + (url + (")" + (close + rest))));
  }

  /** Each well-formed link is replaced by its rendering and scanning
      resumes after it. */
  lemma ReplaceLinksHead(open: string, close: string, text: string, url: string, rest: string,
                         render: (string, string) -> string)
    requires WellFormedLink(text, url)
    ensures ReplaceLinks(LinkMarkup(open, close, text, url) + rest, open, close, render)
         == render(text, url) + ReplaceLinks(rest, open, close, render)
  {
    var m := LinkMarkup(open, close, text, url);
    LinkMatchesMarkup(open, close, text, url, rest);
    assert (m + rest)[|m|..] == rest;
  }

  /** Where no link starts, one character is copied. */
  lemma ReplaceLinksSkip(s: string, open: string, close: string, render: (string, string) -> string)
    requires s != [] && !(open + "[" <= s)
    ensures ReplaceLinks(s, open, close, render) == [s[0]] + ReplaceLinks(s[1..], open, close, render)
  {
    assert MatchLink(s, open, close).None?;
  }

  /** Text that cannot start a link is copied unchanged. */
  lemma ReplaceLinksPlainPrefix(x: string, y: string, open: string, close: string,
                                render: (string, string) -> string)
    requires open != [] && open[0] !in x
    ensures ReplaceLinks(x + y, open, close, render) == x + ReplaceLinks(y, open, close, render)
  {
    var f := s => ReplaceLinks(s, open, close, render);
    forall s | s != [] && !(open + "[" <= s)
      ensures f(s) == [s[0]] + f(s[1..])
    {
      ReplaceLinksSkip(s, open, close, render);
    }
    CopyPrefix(f, open + "[", x, y);
  }

  /** Another marker is copied unchanged. */
  lemma ReplaceLinksMarker(m: string, y: string, open: string, close: string, render: (string, string) -> string)
    requires IsMarker(open + "[") && IsMarker(m) && Clashless(open + "[", m)
    ensures ReplaceLinks(m + y, open, close, render) == m + ReplaceLinks(y, open, close, render)
  {
    var f := s => ReplaceLinks(s, open, close, render);
    forall s | s != [] && !(open + "[" <= s)
      ensures f(s) == [s[0]] + f(s[1..])
    {
      ReplaceLinksSkip(s, open, close, render);
    }
    CopyMarker(f, open + "[", m, y);
  }

  lemma LinkPatternStart(open: string)
    requires IsMarker(open + "[")
    ensures open != [] && open[0] == '{'
  {
    assert (open + "[")[0] == open[0];
  }

  /** Markup of another kind, two markers around text without `{`, is
      copied unchanged. */
  lemma ReplaceLinksCopyUnit(m1: string, body: string, m2: string, y: string,
                             open: string, close: string, render: (string, string) -> string)
    requires IsMarker(open + "[") && IsMarker(m1) && IsMarker(m2) && Clashless(open + "[", m1) && Clashless(open + "[", m2)
    requires '{' !in body
    ensures ReplaceLinks(m1 + body + m2 + y, open, close, render) == m1 + body + m2 + ReplaceLinks(y, open, close, render)
  {
    var r := ReplaceLinks(y, open, close, render);
    AppendAssoc4(m1, body, m2, y);
    AppendAssoc4(m1, body, m2, r);
    LinkPatternStart(open);
    ReplaceLinksMarker(m2, y, open, close, render);
    ReplaceLinksPlainPrefix(body, m2 + y, open, close, render);
    ReplaceLinksMarker(m1, body + (m2 + y), open, close, render);
  }

  // ---------------------------------------------------------------------
  // Payloads: OPEN\s*([\w+/=]+)\s*CLOSE

  datatype Payload = Payload(lead: string, data: string, trail: string, len: nat)

  function PayloadMarkup(open: string, close: string, lead: string, data: string, trail: string): string {
    open + (lead + (data + (trail + close)))
  }

  predicate WellFormedPayload(lead: string, data: string, trail: string) {
    AllSpace(lead) && AllSpace(trail) && data != [] && AllPayloadChars(data)
  }

  /** A payload placeholder is its opening marker, the payload with the
      whitespace around it, and its closing marker. */
  lemma PayloadMarkupParts(open: string, close: string, lead: string, data: string, trail: string, rest: string)
    ensures PayloadMarkup(open, close, lead, data, trail) + rest == open + (lead + data + trail) + close + rest
  {
  }

  /** Neither whitespace nor payload characters include `{`. */
  lemma PayloadPlain(lead: string, data: string, trail: string)
    requires WellFormedPayload(lead, data, trail)
    ensures '{' !in lead + data + trail
  {
    assert '{' !in lead by {
      forall k | 0 <= k < |lead| ensures lead[k] != '{' {
        assert IsJsSpace(lead[k]);
      }
    }
    assert '{' !in data by {
      forall k | 0 <= k < |data| ensures data[k] != '{' {
        assert IsPayloadChar(data[k]);
      }
    }
    assert '{' !in trail by {
      forall k | 0 <= k < |trail| ensures trail[k] != '{' {
        assert IsJsSpace(trail[k]);
      }
    }
  }

  /** A closing marker that starts with `{`, as every marker of both
      scripts does: a character that is neither whitespace nor payload, so
      it ends both greedy runs. */
  predicate Delimits(close: string) {
    close != [] && close[0] == '{'
  }

  /** The payload pattern tried at the start of `s`: OPEN, then the
      greedy runs of blanks, payload characters and blanks, then CLOSE.
      The classes are disjoint and CLOSE starts with neither, so the greedy
      runs are the only way to match. What a match stands for is stated by
      `MatchPayloadSound` and `PayloadMatchesMarkup`. */
  function MatchPayload(s: string, open: string, close: string): (r: Option<Payload>)
    ensures r.Some? ==> |open| <= r.value.len <= |s|
  {
    if !(open <= s) then None
    else
      var d := SpaceFrom(s, |open|);
      var e := PayloadFrom(s, d);
      var f := SpaceFrom(s, e);
      if e == d || !(close <= s[f..]) then None
      else Some(Payload(s[|open|..d], s[d..e], s[e..f], f + |close|))
  }

  /** Every match is a well-formed payload in its markers. */
  lemma MatchPayloadSound(s: string, open: string, close: string)
    requires MatchPayload(s, open, close).Some?
    ensures var p := MatchPayload(s, open, close).value;
            WellFormedPayload(p.lead, p.data, p.trail) && s[..p.len] == PayloadMarkup(open, close, p.lead, p.data, p.trail)
  {
    var d := SpaceFrom(s, |open|);
    var e := PayloadFrom(s, d);
    var f := SpaceFrom(s, e);
    var g := f + |close|;
    assert s[f..g] == close;
    SplitAt(s, 0, |open|, g);
    SplitAt(s, |open|, d, g);
    SplitAt(s, d, e, g);
    SplitAt(s, e, f, g);
    assert s[..g] == s[..|open|] + (s[|open|..d] + (s[d..e] + (s[e..f] + s[f..g])));
  }

  /** `s.replace(/OPEN\s*([\w+/=]+)\s*CLOSE/gs, (_, data) => render(data, k))`,
      where `k` numbers the matches from `first` on. */
  function ReplacePayloads(s: string, open: string, close: string, render: (string, nat) -> string, first: nat): string
    requires open != []
    decreases |s|
  {
    match MatchPayload(s, open, close)
    case Some(p) => render(p.data, first) + ReplacePayloads(s[p.len..], open, close, render, first + 1)
    case None => if s == [] then [] else [s[0]] + ReplacePayloads(s[1..], open, close, render, first)
  }

  /** A text that holds a well-formed payload's pieces at consecutive
      positions after OPEN matches with exactly those pieces. */
  lemma MatchPayloadAt(s: string, open: string, close: string, lead: string, data: string, trail: string)
    requires WellFormedPayload(lead, data, trail) && Delimits(close)
    requires |open| + |lead| + |data| + |trail| + |close| <= |s| && open <= s
    requires s[|open|..|open| + |lead|] == lead
    requires s[|open| + |lead|..|open| + |lead| + |data|] == data
    requires s[|open| + |lead| + |data|..|open| + |lead| + |data| + |trail|] == trail
    requires s[|open| + |lead| + |data| + |trail|..|open| + |lead| + |data| + |trail| + |close|] == close
    ensures MatchPayload(s, open, close) == Some(Payload(lead, data, trail, |open| + |lead| + |data| + |trail| + |close|))
  {
    var d := |open| + |lead|;
    var e := d + |data|;
    var f := e + |trail|;
    assert s[d] == s[d..e][0] && IsPayloadChar(s[d]);
    SpaceFromExact(s, |open|, d);
    assert s[f] == s[f..f + |close|][0] == '{';
    if e < f {
      assert s[e] == s[e..f][0] && IsJsSpace(s[e]);
    }
    PayloadFromExact(s, d, e);
    SpaceFromExact(s, e, f);
    assert close <= s[f..];
  }

  /** Where each piece of a payload's markup sits. */
  lemma PayloadMarkupSlices(open: string, close: string, lead: string, data: string, trail: string, rest: string)
    ensures var s := PayloadMarkup(open, close, lead, data, trail) + rest;
            var d := |open| + |lead|;
            var e := d + |data|;
            var f := e + |trail|;
            |s| == f + |close| + |rest| && open <= s && s[|open|..d] == lead && s[d..e] == data
            && s[e..f] == trail && s[f..f + |close|] == close && s[f + |close|..] == rest
  {
    var s := PayloadMarkup(open, close, lead, data, trail) + rest;
    var t3 := trail + (close + rest);
    var t2 := data + t3;
    assert s == open + (lead + t2);
    PieceAt(open, lead, t2);
    AppendAssoc(open, lead, t2);
    PieceAt(open + lead, data, t3);
    AppendAssoc(open + lead, data, t3);
    PieceAt(open + lead + data, trail, close + rest);
    AppendAssoc(open + lead + data, trail, close + rest);
    PieceAt(open + lead + data + trail, close, rest);
  }

  /** A well-formed payload matches with exactly its data. */
  lemma PayloadMatchesMarkup(open: string, close: string, lead: string, data: string, trail: string, rest: string)
    requires WellFormedPayload(lead, data, trail) && Delimits(close)
    ensures MatchPayload(PayloadMarkup(open, close, lead, data, trail) + rest, open, close)
         == Some(Payload(lead, data, trail, |PayloadMarkup(open, close, lead, data, trail)|))
  {
    var s := PayloadMarkup(open, close, lead, data, trail) + rest;
    PayloadMarkupSlices(open, close, lead, data, trail, rest);
    MatchPayloadAt(s, open, close, lead, data, trail);
  }

  /** Each well-formed payload is replaced by its rendering and scanning
      resumes after it with the next ordinal. */
  lemma ReplacePayloadsHead(open: string, close: string, lead: string, data: string, trail: string, rest: string,
                            render: (string, nat) -> string, first: nat)
    requires open != [] && WellFormedPayload(lead, data, trail) && Delimits(close)
    ensures ReplacePayloads(PayloadMarkup(open, close, lead, data, trail) + rest, open, close, render, first)
         == render(data, first) + ReplacePayloads(rest, open, close, render, first + 1)
  {
    var m := PayloadMarkup(open, close, lead, data, trail);
    PayloadMatchesMarkup(open, close, lead, data, trail, rest);
    assert (m + rest)[|m|..] == rest;
  }

  /** Where no payload starts, one character is copied. */
  lemma ReplacePayloadsSkip(s: string, open: string, close: string, render: (string, nat) -> string, first: nat)
    requires open != [] && s != [] && !(open <= s)
    ensures ReplacePayloads(s, open, close, render, first) == [s[0]] + ReplacePayloads(s[1..], open, close, render, first)
  {
    assert MatchPayload(s, open, close).None?;
  }

  /** Text that cannot start a payload is copied unchanged. */
  lemma ReplacePayloadsPlainPrefix(x: string, y: string, open: string, close: string,
                                   render: (string, nat) -> string, first: nat)
    requires open != [] && open[0] !in x
    ensures ReplacePayloads(x + y, open, close, render, first) == x + ReplacePayloads(y, open, close, render, first)
  {
    var f := s => ReplacePayloads(s, open, close, render, first);
    forall s | s != [] && !(open <= s)
      ensures f(s) == [s[0]] + f(s[1..])
    {
      ReplacePayloadsSkip(s, open, close, render, first);
    }
    CopyPrefix(f, open, x, y);
  }
  /** Text without the opening marker's first character is kept. */
  lemma ReplacePayloadsPlain(x: string, open: string, close: string, render: (string, nat) -> string, first: nat)
    requires open != [] && open[0] !in x
    ensures ReplacePayloads(x, open, close, render, first) == x
  {
    ReplacePayloadsPlainPrefix(x, [], open, close, render, first);
    assert x + [] == x;
  }
  /** A placeholder followed by text without the opening marker's first
      character: only the placeholder is rendered. */
  lemma ReplacePayloadsLast(open: string, close: string, lead: string, data: string, trail: string, rest: string,
                            render: (string, nat) -> string, first: nat)
    requires open != [] && WellFormedPayload(lead, data, trail) && Delimits(close) && open[0] !in rest
    ensures ReplacePayloads(PayloadMarkup(open, close, lead, data, trail) + rest, open, close, render, first)
         == render(data, first) + rest
  {
    ReplacePayloadsHead(open, close, lead, data, trail, rest, render, first);
    ReplacePayloadsPlain(rest, open, close, render, first + 1);
  }

  /** Another marker is copied unchanged. */
  lemma ReplacePayloadsMarker(m: string, y: string, open: string, close: string,
                              render: (string, nat) -> string, first: nat)
    requires IsMarker(open) && IsMarker(m) && Clashless(open, m)
    ensures ReplacePayloads(m + y, open, close, render, first) == m + ReplacePayloads(y, open, close, render, first)
  {
    var f := s => ReplacePayloads(s, open, close, render, first);
    forall s | s != [] && !(open <= s)
      ensures f(s) == [s[0]] + f(s[1..])
    {
      ReplacePayloadsSkip(s, open, close, render, first);
    }
    CopyMarker(f, open, m, y);
  }

  /** Markup of another kind, two markers around text without `{`, is
      copied unchanged. */
  lemma ReplacePayloadsCopyUnit(m1: string, body: string, m2: string, y: string,
                                open: string, close: string, render: (string, nat) -> string, first: nat)
    requires IsMarker(open) && IsMarker(m1) && IsMarker(m2) && Clashless(open, m1) && Clashless(open, m2)
    requires '{' !in body
    ensures ReplacePayloads(m1 + body + m2 + y, open, close, render, first)
         == m1 + body + m2 + ReplacePayloads(y, open, close, render, first)
  {
    var r := ReplacePayloads(y, open, close, render, first);
    AppendAssoc4(m1, body, m2, y);
    AppendAssoc4(m1, body, m2, r);
    ReplacePayloadsMarker(m2, y, open, close, render, first);
    ReplacePayloadsPlainPrefix(body, m2 + y, open, close, render, first);
    ReplacePayloadsMarker(m1, body + (m2 + y), open, close, render, first);
  }

  /** A text in which OPEN does not occur comes back unchanged. */
  lemma ReplacePayloadsNoMarker(s: string, open: string, close: string, render: (string, nat) -> string, first: nat)
    requires open != [] && !Contains(s, open)
    ensures ReplacePayloads(s, open, close, render, first) == s
  {
    var f := t => ReplacePayloads(t, open, close, render, first);
    forall t | t != [] && !(open <= t)
      ensures f(t) == [t[0]] + f(t[1..])
    {
      ReplacePayloadsSkip(t, open, close, render, first);
    }
    assert f([]) == [];
    CopyUnmarked(f, open, s);
  }

  /** A rendering that ignores the ordinal. */
  ghost predicate OrdinalFree(render: (string, nat) -> string) {
    forall d, k :: render(d, k) == render(d, 0)
  }

  /** When the rendering ignores the ordinal, where the numbering starts
      does not matter. */
  lemma {:induction false} ReplacePayloadsOrdinalFree(s: string, open: string, close: string,
                                                      render: (string, nat) -> string, i: nat, j: nat)
    requires open != [] && OrdinalFree(render)
    ensures ReplacePayloads(s, open, close, render, i) == ReplacePayloads(s, open, close, render, j)
    decreases |s|
  {
    match MatchPayload(s, open, close)
    case Some(p) =>
      assert render(p.data, i) == render(p.data, 0) == render(p.data, j);
      ReplacePayloadsOrdinalFree(s[p.len..], open, close, render, i + 1, j + 1);
    case None =>
      if s != [] {
        ReplacePayloadsOrdinalFree(s[1..], open, close, render, i, j);
      }
  }

  /** With a rendering that ignores the ordinal, a payload is replaced by
      its rendering and the rest is rewritten as if it stood alone. */
  lemma ReplacePayloadsHeadFree(open: string, close: string, lead: string, data: string, trail: string, rest: string,
                                render: (string, nat) -> string)
    requires open != [] && WellFormedPayload(lead, data, trail) && Delimits(close) && OrdinalFree(render)
    ensures ReplacePayloads(PayloadMarkup(open, close, lead, data, trail) + rest, open, close, render, 0)
         == render(data, 0) + ReplacePayloads(rest, open, close, render, 0)
  {
    ReplacePayloadsHead(open, close, lead, data, trail, rest, render, 0);
    ReplacePayloadsOrdinalFree(rest, open, close, render, 1, 0);
  }
}
