/** The SquareHero hub's `cleanGoogleDocUrl`: a documentation link that
    Google has wrapped in its redirect page is unwrapped to the address
    it points to; any other link is kept as it is. */
module HubLinks {
  import opened Text
  import opened Markup
  import opened Uri

  /** Google's redirect page, up to its query parameter. */
  const RedirectPage := "https://www.google.com/url?"
  const Query := "q="
  const RedirectPrefix := RedirectPage + Query

  /** `cleanGoogleDocUrl(url)`: a link that mentions the redirect page
      loses everything up to the first `q=` and from the next `q=` or `&`
      on; what is left is percent-decoded, which throws a URIError on a
      malformed escape. */
  function CleanGoogleDocUrl(url: string): (r: Result<string, string>)
    ensures !Contains(url, RedirectPrefix) ==> r == Ok(url)
    ensures r.Err? ==> r.error == UriError && Contains(url, RedirectPrefix)
  {
    if Contains(url, RedirectPrefix) then
      RedirectHasQuery(url);
      DecodeUriComponent(FirstPiece(SecondPiece(url, Query), "&"))
    else Ok(url)
  }

  /** A link that mentions the redirect page has a `q=` to split at. */
  lemma RedirectHasQuery(url: string)
    requires Contains(url, RedirectPrefix)
    ensures Contains(url, Query)
  {
    var i := IndexOf(url, RedirectPrefix).value;
    var j := i + |RedirectPage|;
    assert url[j..][..|Query|] == url[i..][..|RedirectPrefix|][|RedirectPage|..];
    ContainsAt(url, Query, j);
  }

  /** The redirect page mentions no `q` before its query. */
  lemma RedirectPageHasNoQuery()
    ensures 'q' !in RedirectPage
  {
    assert RedirectPage == "https://" + "www.google.com" + "/url?";
  }

  /** The first `q=` of a redirect link is the redirect page's own. */
  lemma QueryAfterPage(x: string)
    ensures IndexOf(RedirectPrefix + x, Query) == Some(|RedirectPage|)
  {
    var u := RedirectPrefix + x;
    RedirectPageHasNoQuery();
    NoOccurrenceInPlain(RedirectPage, Query + x, Query);
    assert u == RedirectPage + (Query + x);
    assert u[|RedirectPage|..] == Query + x;
  }

  /** Without `=`, a text has no `q=` until its first `&`. */
  lemma NoQueryBeforeAmp(x: string, rest: string)
    requires '=' !in x
    ensures NoOccurrenceBefore(x + ("&" + rest), Query, |x| + 1)
  {
    var t := x + ("&" + rest);
    forall j | 0 <= j < |x| + 1 && j <= |t|
      ensures !(Query <= t[j..])
    {
      if j < |x| {
        assert t[j + 1] != '=';
      } else {
        assert t[j] == '&';
      }
    }
  }

  /** Without `=`, a text has no `q=` at all. */
  lemma NoQueryIn(x: string)
    requires '=' !in x
    ensures NoOccurrenceBefore(x, Query, |x|)
  {
    forall j | 0 <= j < |x|
      ensures !(Query <= x[j..])
    {
      if j + 1 < |x| {
        assert x[j + 1] != '=';
      }
    }
  }

  /** After the redirect page, the split starts at its own `q=`. */
  lemma RedirectPiece(t: string)
    ensures Contains(RedirectPrefix + t, RedirectPrefix) && Contains(RedirectPrefix + t, Query)
    ensures SecondPiece(RedirectPrefix + t, Query) == FirstPiece(t, Query)
  {
    var u := RedirectPrefix + t;
    PrefixRest(RedirectPrefix, t);
    ContainsAt(u, RedirectPrefix, 0);
    QueryAfterPage(t);
    assert |RedirectPage| + |Query| == |RedirectPrefix|;
  }

  /** The two cuts leave a target free of `=` and `&` that is followed by
      an `&`. */
  lemma TargetBeforeAmp(x: string, rest: string)
    requires '=' !in x && '&' !in x
    ensures FirstPiece(FirstPiece(x + ("&" + rest), Query), "&") == x
  {
    var t := x + ("&" + rest);
    NoQueryBeforeAmp(x, rest);
    var piece := FirstPiece(t, Query);
    assert |x| + 1 <= |piece|;
    assert piece[..|x| + 1] == t[..|x| + 1];
    PieceAt([], x, "&" + rest);
    assert piece[|x|] == '&' && piece[..|x|] == x;
    NoOccurrenceInPlain(x, piece[|x|..], "&");
    assert piece == x + piece[|x|..];
    FirstPieceAt(piece, "&", |x|);
  }

  /** The two cuts leave a target free of `=` and `&` as it is. */
  lemma TargetAlone(x: string)
    requires '=' !in x && '&' !in x
    ensures FirstPiece(FirstPiece(x, Query), "&") == x
  {
    NoQueryIn(x);
    FirstPieceAt(x, Query, |x|);
    NoOccurrenceInPlain(x, [], "&");
    assert x + [] == x;
    FirstPieceAt(x, "&", |x|);
  }

  /** A redirect whose target has no `=` or `&` of its own, followed by
      further parameters, is cleaned to the percent-decoding of the
      target. */
  lemma CleanRedirect(x: string, rest: string)
    requires '=' !in x && '&' !in x
    ensures CleanGoogleDocUrl(RedirectPrefix + (x + ("&" + rest))) == DecodeUriComponent(x)
  {
    RedirectPiece(x + ("&" + rest));
    TargetBeforeAmp(x, rest);
  }

  /** A redirect with nothing after a target free of `=` and `&` is cleaned
      to the target's percent-decoding. */
  lemma CleanBareRedirect(x: string)
    requires '=' !in x && '&' !in x
    ensures CleanGoogleDocUrl(RedirectPrefix + x) == DecodeUriComponent(x)
  {
    RedirectPiece(x);
    TargetAlone(x);
  }

  /** Google's redirect around an `encodeURIComponent`-encoded address
      cleans back to that address. */
  lemma CleanEncodedRedirect(target: string, rest: string)
    ensures CleanGoogleDocUrl(RedirectPrefix + (EncodeUriComponent(target) + ("&" + rest))) == Ok(target)
    ensures CleanGoogleDocUrl(RedirectPrefix + EncodeUriComponent(target)) == Ok(target)
  {
    CleanRedirect(EncodeUriComponent(target), rest);
    CleanBareRedirect(EncodeUriComponent(target));
    DecodeEncode(target);
  }

  /** A redirect target with a `%` not followed by a hexadecimal digit
      throws a URIError. */
  lemma CleanMalformedRedirect(pre: string, c: char, post: string, rest: string)
    requires '%' !in pre && !IsHexDigit(c)
    requires '=' !in pre + "%" + [c] + post && '&' !in pre + "%" + [c] + post
    ensures CleanGoogleDocUrl(RedirectPrefix + (pre + "%" + [c] + post + ("&" + rest))) == Err(UriError)
  {
    CleanRedirect(pre + "%" + [c] + post, rest);
    MalformedEscapeThrows(pre, c, post);
  }
}
