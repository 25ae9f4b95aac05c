/** The installation guide's spreadsheet assembly (`handleSpreadsheetLink`):
    every parsed row with a Title and a Link gets an anchor `doc-<index>`
    in the anchor bar and a pending fetch; when the fetched sections come
    back they are sorted by row index and joined after the anchor bar. */
module Spreadsheet {
  import opened Text

  /** A parsed CSV row, keyed by the header line. A column the row lacks is
      `None`. */
  datatype Row = Row(title: Option<string>, link: Option<string>)

  /** A fetch started for row `index`. */
  datatype Pending = Pending(index: nat, title: string, link: string)

  /** A fetched section, tagged with the row it belongs to. */
  datatype Section = Section(index: nat, content: string)

  /** `row.Title && row.Link`: both present and non-empty. */
  predicate Qualifies(row: Row) {
    row.title.Some? && row.title.value != [] && row.link.Some? && row.link.value != []
  }

  function AnchorId(index: nat): string {
    "doc-" + Decimal(index)
  }

  function AnchorLink(index: nat, title: string): string {
    "<a href=\"#" + AnchorId(index) + "\" class=\"doc-anchor\"><span>" + title + "</span></a>"
  }

  const AnchorBarOpen := "<div class=\"anchor-links\">"
  const AnchorBarClose := "</div>"

  /** The anchors of the first `n` rows. */
  function AnchorsUpTo(rows: seq<Row>, n: nat): string
    requires n <= |rows|
  {
    if n == 0 then []
    else
      var row := rows[n - 1];
      AnchorsUpTo(rows, n - 1) + (if Qualifies(row) then AnchorLink(n - 1, row.title.value) else [])
  }

  /** The fetches started for the first `n` rows. */
  function PendingUpTo(rows: seq<Row>, n: nat): seq<Pending>
    requires n <= |rows|
  {
    if n == 0 then []
    else
      var row := rows[n - 1];
      PendingUpTo(rows, n - 1) + (if Qualifies(row) then [Pending(n - 1, row.title.value, row.link.value)] else [])
  }

  /** Row `n` adds its anchor exactly when it qualifies. */
  lemma AnchorsStep(rows: seq<Row>, n: nat)
    requires n < |rows|
    ensures Qualifies(rows[n]) ==> AnchorsUpTo(rows, n + 1) == AnchorsUpTo(rows, n) + AnchorLink(n, rows[n].title.value)
    ensures !Qualifies(rows[n]) ==> AnchorsUpTo(rows, n + 1) == AnchorsUpTo(rows, n)
  {
    assert AnchorsUpTo(rows, n) + [] == AnchorsUpTo(rows, n);
  }

  /** The `rows.forEach` loop: the anchor bar, and the fetches in row
      order. */
  method CollectRows(rows: seq<Row>) returns (anchors: string, pending: seq<Pending>)
    ensures anchors == AnchorBarOpen + AnchorsUpTo(rows, |rows|) + AnchorBarClose
    ensures pending == PendingUpTo(rows, |rows|)
  {
    anchors := AnchorBarOpen;
    pending := [];
    var index := 0;
    while index < |rows|
      invariant index <= |rows|
      invariant anchors == AnchorBarOpen + AnchorsUpTo(rows, index)
      invariant pending == PendingUpTo(rows, index)
    {
      var row := rows[index];
      AnchorsStep(rows, index);
      PendingStep(rows, index);
      if row.title.Some? && row.title.value != [] && row.link.Some? && row.link.value != [] {
        AppendAssoc(AnchorBarOpen, AnchorsUpTo(rows, index), AnchorLink(index, row.title.value));
        anchors := anchors + AnchorLink(index, row.title.value);
        pending := pending + [Pending(index, row.title.value, row.link.value)];
      }
      index := index + 1;
    }
    anchors := anchors + AnchorBarClose;
  }

  /** Row indices strictly increase along a sequence. */
  predicate Increasing(p: seq<Pending>) {
    forall i, j :: 0 <= i < j < |p| ==> p[i].index < p[j].index
  }

  /** A fetch starts for row `n` exactly when it qualifies. */
  lemma PendingStep(rows: seq<Row>, n: nat)
    requires n < |rows|
    ensures Qualifies(rows[n]) ==> PendingUpTo(rows, n + 1) == PendingUpTo(rows, n) + [Pending(n, rows[n].title.value, rows[n].link.value)]
    ensures !Qualifies(rows[n]) ==> PendingUpTo(rows, n + 1) == PendingUpTo(rows, n)
  {
    assert PendingUpTo(rows, n) + [] == PendingUpTo(rows, n);
  }

  /** Each fetch belongs to a qualifying row before `n` and carries that
      row's title and link; the fetches are in increasing row order. */
  lemma {:induction false} PendingSound(rows: seq<Row>, n: nat)
    requires n <= |rows|
    ensures Increasing(PendingUpTo(rows, n))
    ensures forall k :: 0 <= k < |PendingUpTo(rows, n)| ==> PendingUpTo(rows, n)[k].index < n
    ensures forall k :: 0 <= k < |PendingUpTo(rows, n)| ==> FetchOf(rows, PendingUpTo(rows, n)[k])
  {
    if n > 0 {
      PendingSound(rows, n - 1);
      PendingStep(rows, n - 1);
    }
  }

  /** A fetch for a qualifying row, with that row's title and link. */
  predicate FetchOf(rows: seq<Row>, p: Pending) {
    p.index < |rows| && Qualifies(rows[p.index]) && p.title == rows[p.index].title.value
    && p.link == rows[p.index].link.value
  }

  /** Every qualifying row before `n` has a fetch. */
  lemma {:induction false} PendingComplete(rows: seq<Row>, n: nat, i: nat)
    requires i < n <= |rows| && Qualifies(rows[i])
    ensures exists k :: 0 <= k < |PendingUpTo(rows, n)| && PendingUpTo(rows, n)[k].index == i
  {
    var before := PendingUpTo(rows, n - 1);
    var now := PendingUpTo(rows, n);
    PendingStep(rows, n - 1);
    if i < n - 1 {
      PendingComplete(rows, n - 1, i);
      var k :| 0 <= k < |before| && before[k].index == i;
      assert now[k] == before[k];
    } else {
      assert now[|before|].index == i;
    }
  }

  /** The anchor bar lists the fetched rows' titles, in the same order. */
  function AnchorsOf(p: seq<Pending>): string {
    if p == [] then [] else AnchorsOf(p[..|p| - 1]) + AnchorLink(p[|p| - 1].index, p[|p| - 1].title)
  }

  lemma {:induction false} AnchorsMatchPending(rows: seq<Row>, n: nat)
    requires n <= |rows|
    ensures AnchorsUpTo(rows, n) == AnchorsOf(PendingUpTo(rows, n))
  {
    if n > 0 {
      AnchorsMatchPending(rows, n - 1);
      var before := PendingUpTo(rows, n - 1);
      var now := PendingUpTo(rows, n);
      var row := rows[n - 1];
      if Qualifies(row) {
        var last := Pending(n - 1, row.title.value, row.link.value);
        assert now == before + [last];
        assert now[..|now| - 1] == before;
        assert AnchorsOf(now) == AnchorsOf(before) + AnchorLink(n - 1, row.title.value);
      } else {
        assert now == before + [] == before;
        assert AnchorsUpTo(rows, n) == AnchorsUpTo(rows, n - 1) + [];
      }
    }
  }

  /** Different rows get different anchor ids, so each anchor jumps to its
      own section. */
  lemma AnchorIdInjective(a: nat, b: nat)
    requires AnchorId(a) == AnchorId(b)
    ensures a == b
  {
    assert Decimal(a) == AnchorId(a)[4..];
    assert Decimal(b) == AnchorId(b)[4..];
    DecimalInjective(a, b);
  }

  // ---------------------------------------------------------------------
  // The fetched sections

  /** The section a fetch yields: the document wrapped in a `div` with the
      row's anchor id. */
  function SectionOf(p: Pending, content: string): Section {
    Section(p.index, "<div id=\"" + AnchorId(p.index) + "\" class=\"doc-section\">" + content + "</div>")
  }

  /** The sections in row order, given the fetched document of each link. */
  function RowOrder(p: seq<Pending>, fetched: string -> string): (r: seq<Section>)
    ensures |r| == |p|
    ensures forall k :: 0 <= k < |p| ==> r[k] == SectionOf(p[k], fetched(p[k].link))
  {
    if p == [] then [] else [SectionOf(p[0], fetched(p[0].link))] + RowOrder(p[1..], fetched)
  }

  predicate SortedByIndex(s: seq<Section>) {
    forall i, j :: 0 <= i < j < |s| ==> s[i].index <= s[j].index
  }

  predicate DistinctIndices(s: seq<Section>) {
    forall i, j :: 0 <= i < j < |s| ==> s[i].index != s[j].index
  }

  lemma RowOrderSorted(p: seq<Pending>, fetched: string -> string)
    requires Increasing(p)
    ensures SortedByIndex(RowOrder(p, fetched)) && DistinctIndices(RowOrder(p, fetched))
  {
  }

  /** `results.map(r => r.content).join('')`. */
  function JoinContents(s: seq<Section>): (r: string)
    ensures s == [] ==> r == []
  {
    if s == [] then [] else s[0].content + JoinContents(s[1..])
  }

  /** Joining distributes over concatenation: the page built from two runs
      of sections is the first run's page followed by the second's. */
  lemma {:induction false} JoinContentsAppend(s: seq<Section>, t: seq<Section>)
    ensures JoinContents(s + t) == JoinContents(s) + JoinContents(t)
  {
    if s == [] {
      assert s + t == t;
    } else {
      assert (s + t)[1..] == s[1..] + t;
      JoinContentsAppend(s[1..], t);
      AppendAssoc(s[0].content, JoinContents(s[1..]), JoinContents(t));
    }
  }

  /** Each row adds to the joined sections exactly its own section when it
      qualifies, and nothing otherwise. */
  lemma SectionsUpToStep(rows: seq<Row>, n: nat, fetched: string -> string)
    requires n < |rows|
    ensures Qualifies(rows[n]) ==>
      JoinContents(RowOrder(PendingUpTo(rows, n + 1), fetched))
      == JoinContents(RowOrder(PendingUpTo(rows, n), fetched))
         + SectionOf(Pending(n, rows[n].title.value, rows[n].link.value), fetched(rows[n].link.value)).content
    ensures !Qualifies(rows[n]) ==>
      JoinContents(RowOrder(PendingUpTo(rows, n + 1), fetched)) == JoinContents(RowOrder(PendingUpTo(rows, n), fetched))
  {
    PendingStep(rows, n);
    if Qualifies(rows[n]) {
      var last := Pending(n, rows[n].title.value, rows[n].link.value);
      var before := PendingUpTo(rows, n);
      var sec := SectionOf(last, fetched(last.link));
      assert RowOrder(before + [last], fetched) == RowOrder(before, fetched) + [sec];
      JoinContentsAppend(RowOrder(before, fetched), [sec]);
      assert JoinContents([sec]) == sec.content + [];
      assert sec.content + [] == sec.content;
    }
  }

  method Swap(a: array<Section>, i: int, j: int)
    requires 0 <= i < j < a.Length
    modifies a
    ensures a[..] == old(a[..])[i := old(a[j])][j := old(a[i])]
    ensures multiset(a[..]) == old(multiset(a[..]))
  {
    a[i], a[j] := a[j], a[i];
  }

  /** `results.sort((a, b) => a.index - b.index)`, in place. */
  method SortByIndex(a: array<Section>)
    modifies a
    ensures SortedByIndex(a[..])
    ensures multiset(a[..]) == old(multiset(a[..]))
  {
    if a.Length == 0 {
      return;
    }
    var i := 1;
    while i < a.Length
      invariant 1 <= i <= a.Length
      invariant SortedByIndex(a[..i])
      invariant multiset(a[..]) == old(multiset(a[..]))
    {
      InsertLast(a, i);
      i := i + 1;
    }
  }

  /** One step of the sort: the section at `i` moves down past every
      section with a larger index. */
  method InsertLast(a: array<Section>, i: int)
    requires 0 < i < a.Length && SortedByIndex(a[..i])
    modifies a
    ensures SortedByIndex(a[..i + 1])
    ensures multiset(a[..]) == old(multiset(a[..]))
  {
    var j := i;
    while j > 0 && a[j - 1].index > a[j].index
      invariant 0 <= j <= i
      invariant forall x, y :: 0 <= x < y <= i && y != j ==> a[x].index <= a[y].index
      invariant multiset(a[..]) == old(multiset(a[..]))
    {
      Swap(a, j - 1, j);
      j := j - 1;
    }
  }

  /** Two sorted arrangements of the same sections, whose indices are
      distinct, start with the same section. */
  lemma SortedSameHead(s: seq<Section>, t: seq<Section>)
    requires SortedByIndex(s) && SortedByIndex(t) && DistinctIndices(s)
    requires multiset(s) == multiset(t) && s != []
    ensures t != [] && s[0] == t[0]
  {
    assert s[0] in multiset(s);
    assert s[0] in t;
    var k :| 0 <= k < |t| && t[k] == s[0];
    assert t[0] in multiset(t);
    assert t[0] in s;
    var m :| 0 <= m < |s| && s[m] == t[0];
    assert t[0].index <= t[k].index;
    assert s[0].index <= s[m].index;
  }

  /** Removing the same first element from two equal multisets. */
  lemma MultisetTail(s: seq<Section>, t: seq<Section>)
    requires s != [] && t != [] && s[0] == t[0] && multiset(s) == multiset(t)
    ensures multiset(s[1..]) == multiset(t[1..])
  {
    assert s == [s[0]] + s[1..];
    assert t == [t[0]] + t[1..];
    assert multiset(s[1..]) == multiset(s) - multiset{s[0]};
    assert multiset(t[1..]) == multiset(t) - multiset{t[0]};
  }

  /** Two sorted arrangements of the same sections, whose indices are
      distinct, are the same sequence. */
  lemma {:induction false} SortedUnique(s: seq<Section>, t: seq<Section>)
    requires SortedByIndex(s) && SortedByIndex(t) && DistinctIndices(s)
    requires multiset(s) == multiset(t)
    ensures s == t
  {
    if s == [] {
      assert multiset(t) == multiset{};
    } else {
      SortedSameHead(s, t);
      MultisetTail(s, t);
      SortedUnique(s[1..], t[1..]);
      assert s == [s[0]] + s[1..];
      assert t == [t[0]] + t[1..];
    }
  }

  /** Whatever order the fetches complete in, sorting by index puts the
      sections back in row order. */
  lemma SortRestoresRowOrder(after: seq<Section>, p: seq<Pending>, fetched: string -> string)
    requires Increasing(p)
    requires SortedByIndex(after) && multiset(after) == multiset(RowOrder(p, fetched))
    ensures after == RowOrder(p, fetched)
  {
    RowOrderSorted(p, fetched);
    SortedUnique(RowOrder(p, fetched), after);
  }

  /** The page: the anchor bar, then the sorted sections. */
  method AssemblePage(anchors: string, results: array<Section>, ghost rows: seq<Row>, ghost fetched: string -> string)
    returns (page: string)
    modifies results
    ensures SortedByIndex(results[..]) && multiset(results[..]) == old(multiset(results[..]))
    ensures page == anchors + JoinContents(results[..])
    // Whatever order the sections arrived in, the page lists them in row order.
    ensures multiset(old(results[..])) == multiset(RowOrder(PendingUpTo(rows, |rows|), fetched)) ==>
      page == anchors + JoinContents(RowOrder(PendingUpTo(rows, |rows|), fetched))
    // Sections that already arrive in row order are left where they are.
    ensures old(results[..]) == RowOrder(PendingUpTo(rows, |rows|), fetched) ==> results[..] == old(results[..])
  {
    SortByIndex(results);
    page := anchors + JoinContents(results[..]);
    if multiset(old(results[..])) == multiset(RowOrder(PendingUpTo(rows, |rows|), fetched)) {
      SpreadsheetPageInRowOrder(rows, fetched, old(results[..]), results[..]);
    }
  }

  /** The whole assembly: with the fetched sections arriving in any order,
      the page is the anchor bar followed by the qualifying rows' sections
      in row order. */
  lemma SpreadsheetPageInRowOrder(rows: seq<Row>, fetched: string -> string, arrived: seq<Section>, sorted: seq<Section>)
    requires multiset(arrived) == multiset(RowOrder(PendingUpTo(rows, |rows|), fetched))
    requires SortedByIndex(sorted) && multiset(sorted) == multiset(arrived)
    ensures sorted == RowOrder(PendingUpTo(rows, |rows|), fetched)
  {
    PendingSound(rows, |rows|);
    SortRestoresRowOrder(sorted, PendingUpTo(rows, |rows|), fetched);
  }
}
