/** String helpers shared by both scripts: ECMAScript whitespace and
    `String.prototype.trim`, substring search (`indexOf`, `includes`,
    `startsWith`), global replacement of one character, and the decimal
    form of an array index. Strings are sequences of Unicode scalar values. */
module Text {

  datatype Option<+T> = None | Some(value: T)

  datatype Result<+T, +E> = Ok(value: T) | Err(error: E)

  /** A character matched by `\s` and removed by `trim`: the ECMAScript
      WhiteSpace set (TAB, VT, FF, SPACE, NBSP, ZWNBSP and category Zs) and
      the LineTerminator set (LF, CR, LS, PS). */
  predicate IsJsSpace(c: char) {
    || c == '\t' || c == '\n' || c == '\U{B}' || c == '\U{C}' || c == '\r' || c == ' '
    || c == '\U{A0}' || c == '\U{1680}' || ('\U{2000}' <= c <= '\U{200A}')
    || c == '\U{2028}' || c == '\U{2029}' || c == '\U{202F}' || c == '\U{205F}'
    || c == '\U{3000}' || c == '\U{FEFF}'
  }

  predicate AllSpace(s: string) {
    forall k {:trigger IsJsSpace(s[k])} :: 0 <= k < |s| ==> IsJsSpace(s[k])
  }

  /** Drops the leading whitespace: the result is the longest suffix that
      does not start with whitespace. */
  function TrimStart(s: string): (r: string)
    ensures |r| <= |s| && r == s[|s| - |r|..]
    ensures AllSpace(s[..|s| - |r|])
    ensures r == [] || !IsJsSpace(r[0])
  {
    if s != [] && IsJsSpace(s[0]) then
      var t := s[1..];
      var r := TrimStart(t);
      assert |t| == |s| - 1;
      SpaceRun(s, |t| - |r| + 1);
      assert t[|t| - |r|..] == s[|s| - |r|..];
      r
    else s
  }

  /** A blank character in front of a blank run makes a longer run. */
  lemma SpaceRun(s: string, n: nat)
    requires 0 < n <= |s| && IsJsSpace(s[0]) && AllSpace(s[1..][..n - 1])
    ensures AllSpace(s[..n])
  {
    forall k | 0 < k < n
      ensures IsJsSpace(s[..n][k])
    {
      assert s[..n][k] == s[1..][..n - 1][k - 1];
    }
  }

  /** Drops the trailing whitespace: the result is the longest prefix that
      does not end with whitespace. */
  function TrimEnd(s: string): (r: string)
    ensures |r| <= |s| && r == s[..|r|]
    ensures AllSpace(s[|r|..])
    ensures r == [] || !IsJsSpace(r[|r| - 1])
  {
    if s != [] && IsJsSpace(s[|s| - 1]) then
      var r := TrimEnd(s[..|s| - 1]);
      assert s[|r|..] == s[..|s| - 1][|r|..] + [s[|s| - 1]];
      assert s[..|s| - 1][..|r|] == s[..|r|];
      r
    else s
  }

  /** `String.prototype.trim`. */
  function Trim(s: string): (r: string)
    ensures |r| <= |s|
    ensures r == [] || (!IsJsSpace(r[0]) && !IsJsSpace(r[|r| - 1]))
  {
    TrimEnd(TrimStart(s))
  }

  /** Trimming removes exactly the whitespace padding: whatever blank
      runs surround a text that neither starts nor ends with whitespace,
      `trim` gives back that text. */
  lemma {:induction false} TrimPadded(pre: string, m: string, post: string)
    requires AllSpace(pre) && AllSpace(post)
    requires m == [] || (!IsJsSpace(m[0]) && !IsJsSpace(m[|m| - 1]))
    ensures Trim(pre + m + post) == m
  {
    if m == [] {
      assert pre + m + post == (pre + post) + [];
      assert AllSpace(pre + post);
      TrimStartPadded(pre + post, []);
    } else {
      assert pre + m + post == pre + (m + post);
      TrimStartPadded(pre, m + post);
      TrimEndPadded(m, post);
    }
  }

  lemma {:induction false} TrimStartPadded(pre: string, t: string)
    requires AllSpace(pre)
    requires t == [] || !IsJsSpace(t[0])
    ensures TrimStart(pre + t) == t
  {
    if pre != [] {
      assert (pre + t)[1..] == pre[1..] + t;
      TrimStartPadded(pre[1..], t);
    } else {
      assert pre + t == t;
    }
  }

  lemma {:induction false} TrimEndPadded(t: string, post: string)
    requires AllSpace(post)
    requires t == [] || !IsJsSpace(t[|t| - 1])
    ensures TrimEnd(t + post) == t
    decreases |post|
  {
    if post != [] {
      var shorter := post[..|post| - 1];
      assert (t + post)[..|t + post| - 1] == t + shorter;
      TrimEndPadded(t, shorter);
    } else {
      assert t + post == t;
    }
  }

  /** Trimming keeps only characters of the text. */
  lemma TrimKeepsOut(s: string, x: char)
    requires x !in s
    ensures x !in Trim(s)
  {
    var t := TrimStart(s);
    assert t == s[|s| - |t|..];
    assert Trim(s) == t[..|Trim(s)|];
  }

  /** Trimming twice is trimming once. */
  lemma TrimIdempotent(s: string)
    ensures Trim(Trim(s)) == Trim(s)
  {
    var r := Trim(s);
    TrimPadded([], r, []);
    assert [] + r + [] == r;
  }

  /** No occurrence of `p` starts in `t` before position `n`. */
  predicate NoOccurrenceBefore(t: string, p: string, n: int) {
    forall j :: 0 <= j < n && j <= |t| ==> !(p <= t[j..])
  }

  /** Appending in two steps is appending the concatenation. */
  lemma AppendAssoc<T>(a: seq<T>, b: seq<T>, c: seq<T>)
    ensures a + b + c == a + (b + c)
  {
  }

  /** The same for four pieces. */
  lemma AppendAssoc4<T>(a: seq<T>, b: seq<T>, c: seq<T>, d: seq<T>)
    ensures a + b + c + d == a + (b + (c + d))
  {
  }

  /** Dropping a prefix leaves the rest. */
  lemma PrefixRest(p: string, t: string)
    ensures p <= p + t && (p + t)[..|p|] == p && (p + t)[|p|..] == t
  {
  }

  /** A piece sits right after what precedes it. */
  lemma PieceAt(pre: string, piece: string, post: string)
    ensures (pre + (piece + post))[|pre|..|pre| + |piece|] == piece
    ensures (pre + (piece + post))[|pre| + |piece|..] == post
  {
  }

  /** `t.indexOf(p)`: the position of the first occurrence of `p` in `t`. */
  function IndexOf(t: string, p: string): (r: Option<nat>)
    ensures r.Some? ==> r.value + |p| <= |t| && p <= t[r.value..] && NoOccurrenceBefore(t, p, r.value)
    ensures r.None? ==> NoOccurrenceBefore(t, p, |t| + 1)
    decreases |t|
  {
    if p <= t then Some(0)
    else if t == [] then None
    else
      var rest := IndexOf(t[1..], p);
      assert forall j {:trigger t[j..]} :: 1 <= j <= |t| ==> t[j..] == t[1..][j - 1..];
      match rest
      case None => None
      case Some(i) =>
        assert t[i + 1..] == t[1..][i..];
        Some(i + 1)
  }

  /** The first occurrence, wherever that is shown to be. */
  lemma IndexOfAt(t: string, p: string, i: nat)
    requires i <= |t| && p <= t[i..] && NoOccurrenceBefore(t, p, i)
    ensures IndexOf(t, p) == Some(i)
  {
  }

  /** `t.includes(p)`. */
  predicate Contains(t: string, p: string) {
    IndexOf(t, p).Some?
  }

  /** A text in which `p` does not occur keeps that property when its first
      character is dropped. */
  lemma NotContainsTail(t: string, p: string)
    requires t != []
    ensures !Contains(t, p) ==> !Contains(t[1..], p)
  {
  }

  /** An occurrence found at a known position makes `includes` true. */
  lemma ContainsAt(t: string, p: string, j: nat)
    requires j <= |t| && p <= t[j..]
    ensures Contains(t, p)
  {
  }

  /** `t.split(p)[0]` for a non-empty separator: the text before the first
      occurrence of `p`, or all of `t` when there is none. */
  function FirstPiece(t: string, p: string): (r: string)
    requires p != []
    ensures r <= t && NoOccurrenceBefore(t, p, |r|)
    ensures r == t || p <= t[|r|..]
  {
    match IndexOf(t, p)
    case Some(i) => t[..i]
    case None => t
  }

  /** The piece ends at the first occurrence, wherever that is shown to be. */
  lemma FirstPieceAt(t: string, p: string, i: nat)
    requires p != [] && i <= |t| && (i == |t| || p <= t[i..])
    requires NoOccurrenceBefore(t, p, i)
    ensures FirstPiece(t, p) == t[..i]
  {
    var r := FirstPiece(t, p);
    assert |r| == i;
  }

  /** `t.split(p)[1]` for a text in which `p` occurs: the text after the
      first occurrence, up to the next one. */
  function SecondPiece(t: string, p: string): string
    requires p != [] && Contains(t, p)
  {
    var i := IndexOf(t, p).value;
    FirstPiece(t[i + |p|..], p)
  }

  /** `s.replace(/c/g, rep)` for a single character `c`. */
  function ReplaceChar(s: string, c: char, rep: string): (r: string)
    ensures c !in s ==> r == s
    ensures c !in rep ==> c !in r
  {
    if s == [] then []
    else (if s[0] == c then rep else [s[0]]) + ReplaceChar(s[1..], c, rep)
  }

  /** A character found neither in the text nor in the replacement is not
      in the result. */
  lemma {:induction false} ReplaceCharAbsent(s: string, c: char, rep: string, x: char)
    requires x !in s && x !in rep
    ensures x !in ReplaceChar(s, c, rep)
  {
    if s != [] {
      ReplaceCharAbsent(s[1..], c, rep, x);
    }
  }

  /** Replacing a character is done piecewise. */
  lemma {:induction false} ReplaceCharAppend(a: string, b: string, c: char, rep: string)
    ensures ReplaceChar(a + b, c, rep) == ReplaceChar(a, c, rep) + ReplaceChar(b, c, rep)
  {
    if a != [] {
      var head := if a[0] == c then rep else [a[0]];
      assert (a + b)[0] == a[0] && (a + b)[1..] == a[1..] + b;
      assert ReplaceChar(a + b, c, rep) == head + ReplaceChar(a[1..] + b, c, rep);
      ReplaceCharAppend(a[1..], b, c, rep);
      assert ReplaceChar(a, c, rep) == head + ReplaceChar(a[1..], c, rep);
    } else {
      assert a + b == b;
    }
  }

  /** A chain `s.replace(/c1/g, rep1).replace(/c2/g, rep2)...`, one pass per
      entry, in order. */
  function ReplaceChain(s: string, passes: seq<(char, string)>): string
    decreases |passes|
  {
    if passes == [] then s else ReplaceChain(ReplaceChar(s, passes[0].0, passes[0].1), passes[1..])
  }

  /** The replacement of each pass holds none of the characters the later
      passes replace, so no later pass rewrites what an earlier one wrote. */
  predicate Layered(passes: seq<(char, string)>) {
    forall i, j :: 0 <= i < j < |passes| ==> passes[j].0 !in passes[i].1
  }

  predicate Untouched(s: string, passes: seq<(char, string)>) {
    forall i :: 0 <= i < |passes| ==> passes[i].0 !in s
  }

  /** What the chain makes of one character: the replacement of the first
      pass for it, or the character itself. */
  function ChainChar(c: char, passes: seq<(char, string)>): string
    decreases |passes|
  {
    if passes == [] then [c] else if passes[0].0 == c then passes[0].1 else ChainChar(c, passes[1..])
  }

  /** A chain of replacements is done piecewise. */
  lemma {:induction false} ReplaceChainAppend(x: string, y: string, passes: seq<(char, string)>)
    ensures ReplaceChain(x + y, passes) == ReplaceChain(x, passes) + ReplaceChain(y, passes)
    decreases |passes|
  {
    if passes != [] {
      var (c, rep) := passes[0];
      ReplaceCharAppend(x, y, c, rep);
      ReplaceChainAppend(ReplaceChar(x, c, rep), ReplaceChar(y, c, rep), passes[1..]);
    }
  }

  /** Text holding none of the replaced characters is not changed. */
  lemma {:induction false} ReplaceChainUntouched(s: string, passes: seq<(char, string)>)
    requires Untouched(s, passes)
    ensures ReplaceChain(s, passes) == s
    decreases |passes|
  {
    if passes != [] {
      assert passes[0].0 !in s;
      ReplaceChainUntouched(s, passes[1..]);
    }
  }

  /** On one character a layered chain gives that character's replacement. */
  lemma {:induction false} ReplaceChainChar(c: char, passes: seq<(char, string)>)
    requires Layered(passes)
    ensures ReplaceChain([c], passes) == ChainChar(c, passes)
    decreases |passes|
  {
    if passes != [] {
      var (p, rep) := passes[0];
      assert [c][1..] == [];
      assert ReplaceChar([c], p, rep) == (if c == p then rep else [c]);
      if c == p {
        assert Untouched(rep, passes[1..]) by {
          forall i | 0 <= i < |passes| - 1 ensures passes[1..][i].0 !in rep {
            assert passes[i + 1].0 !in passes[0].1;
          }
        }
        ReplaceChainUntouched(rep, passes[1..]);
      } else {
        LayeredTail(passes);
        ReplaceChainChar(c, passes[1..]);
      }
    }
  }

  /** A character found neither in the text nor in any replacement is not
      in the result. */
  lemma {:induction false} ReplaceChainAbsent(s: string, passes: seq<(char, string)>, x: char)
    requires x !in s && forall j :: 0 <= j < |passes| ==> x !in passes[j].1
    ensures x !in ReplaceChain(s, passes)
    decreases |passes|
  {
    if passes != [] {
      ReplaceCharAbsent(s, passes[0].0, passes[0].1, x);
      ReplaceChainAbsent(ReplaceChar(s, passes[0].0, passes[0].1), passes[1..], x);
    }
  }

  /** Neither pass `k` nor any later pass writes the character pass `k`
      replaces. */
  predicate Erases(passes: seq<(char, string)>, k: nat)
    requires k < |passes|
  {
    forall j :: k <= j < |passes| ==> passes[k].0 !in passes[j].1
  }

  /** The character of a pass that erases it is gone from the result. */
  lemma {:induction false} ReplaceChainRemoves(s: string, passes: seq<(char, string)>, k: nat)
    requires k < |passes| && Erases(passes, k)
    ensures passes[k].0 !in ReplaceChain(s, passes)
    decreases k
  {
    var t := ReplaceChar(s, passes[0].0, passes[0].1);
    if k == 0 {
      forall j | 0 <= j < |passes| - 1 ensures passes[0].0 !in passes[1..][j].1 {
        assert passes[1..][j] == passes[j + 1];
      }
      ReplaceChainAbsent(t, passes[1..], passes[0].0);
    } else {
      forall j | k - 1 <= j < |passes| - 1 ensures passes[1..][k - 1].0 !in passes[1..][j].1 {
        assert passes[1..][j] == passes[j + 1];
      }
      ReplaceChainRemoves(t, passes[1..], k - 1);
    }
  }

  lemma LayeredTail(passes: seq<(char, string)>)
    requires Layered(passes) && passes != []
    ensures Layered(passes[1..])
  {
    forall i, j | 0 <= i < j < |passes| - 1 ensures passes[1..][j].0 !in passes[1..][i].1 {
      assert passes[j + 1].0 !in passes[i + 1].1;
    }
  }

  function DigitChar(d: nat): (c: char)
    requires d < 10
    ensures '0' <= c <= '9'
  {
    "0123456789"[d]
  }

  /** The decimal form of a natural number, as a template literal prints an
      array index. */
  function Decimal(n: nat): (r: string)
    ensures |r| >= 1 && (n < 10 <==> |r| == 1)
    ensures forall k :: 0 <= k < |r| ==> '0' <= r[k] <= '9'
  {
    if n < 10 then [DigitChar(n)] else Decimal(n / 10) + [DigitChar(n % 10)]
  }

  /** Different numbers print differently. */
  lemma {:induction false} DecimalInjective(a: nat, b: nat)
    requires Decimal(a) == Decimal(b)
    ensures a == b
  {
    if 10 <= a && 10 <= b {
      var da, db := Decimal(a), Decimal(b);
      assert da[..|da| - 1] == Decimal(a / 10);
      assert db[..|db| - 1] == Decimal(b / 10);
      DecimalInjective(a / 10, b / 10);
      assert "0123456789"[a % 10] == "0123456789"[b % 10];
    } else if a < 10 && b < 10 {
      assert "0123456789"[a] == "0123456789"[b];
    }
  }

  /** `n` blanks, the indentation inside a template literal. */
  function Indent(n: nat): (r: string)
    ensures |r| == n && forall k :: 0 <= k < n ==> r[k] == ' '
  {
    seq(n, _ => ' ')
  }
}
