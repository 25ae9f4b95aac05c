/** The SquareHero hub's use of its Google Sheets: the plugin list
    (`loadPluginContent`, with `addPlugin`'s status badge) and the
    accordions of help documents (`loadAccordionContent`). Each sheet
    arrives parsed into rows of cells, its first row being the header;
    the page's `meta[squarehero-plugin]` tags arrive in document order. */
module HubSheets {
  import opened Text

  /** A parsed CSV row. */
  type Row = seq<string>

  /** `const [a, b, c] = row`: a column the row lacks is `undefined`. */
  function Cell(row: Row, i: nat): (r: Option<string>)
    ensures r.Some? <==> i < |row|
    ensures r.Some? ==> r.value == row[i]
  {
    if i < |row| then Some(row[i]) else None
  }

  /** `rows.slice(1)`: every row after the header; nothing when the sheet
      is empty. */
  function DropHeader(rows: seq<Row>): (r: seq<Row>)
    ensures |r| == if rows == [] then 0 else |rows| - 1
    ensures forall k :: 0 <= k < |r| ==> r[k] == rows[k + 1]
  {
    if rows == [] then [] else rows[1..]
  }

  // ---------------------------------------------------------------------
  // The status badge

  /** The class and the text of a plugin's status label. */
  datatype Badge = Badge(cls: string, text: string)

  /** `addPlugin`'s status label: the value of the meta tag's `enabled`
      attribute, `None` when the tag has none. */
  function StatusBadge(status: Option<string>): (b: Badge)
    ensures b.cls == "enabled" <==> status == Some("true")
    ensures b.text == "Enabled" <==> status == Some("true")
    ensures b == Badge("enabled", "Enabled") || b == Badge("disabled", "Disabled")
  {
    if status == Some("true") then Badge("enabled", "Enabled") else Badge("disabled", "Disabled")
  }

  /** Only the exact text `true` enables; other spellings and a missing
      attribute do not. */
  lemma OnlyTrueEnables()
    ensures StatusBadge(Some("true")) == Badge("enabled", "Enabled")
    ensures StatusBadge(Some("True")).cls == "disabled" && StatusBadge(Some("1")).cls == "disabled"
    ensures StatusBadge(Some("")).cls == "disabled" && StatusBadge(None).cls == "disabled"
  {
  }

  // ---------------------------------------------------------------------
  // loadPluginContent

  /** A `meta[squarehero-plugin]` tag: its plugin name and its `enabled`
      attribute. */
  datatype Meta = Meta(name: string, enabled: Option<string>)

  /** A plugin entry as `addPlugin` receives it. */
  datatype Plugin = Plugin(name: string, displayName: Option<string>, badge: Badge, helpDocUrl: Option<string>)

  /** `metaTags.includes(name)`. */
  predicate Listed(name: string, metas: seq<Meta>) {
    exists j :: 0 <= j < |metas| && metas[j].name == name
  }

  /** `document.querySelector(...)` for a plugin name: the first tag in
      document order with that name. */
  function FirstMeta(name: string, metas: seq<Meta>): (r: Option<Meta>)
    ensures r.Some? <==> Listed(name, metas)
    ensures r.Some? ==> r.value.name == name && r.value in metas
    ensures r.Some? ==> exists j :: 0 <= j < |metas| && metas[j] == r.value
                         && forall i :: 0 <= i < j ==> metas[i].name != name
  {
    if metas == [] then None
    else if metas[0].name == name then Some(metas[0])
    else
      var rest := FirstMeta(name, metas[1..]);
      assert forall j :: 0 < j < |metas| ==> metas[j] == metas[1..][j - 1];
      if rest.Some? then
        var j :| 0 <= j < |metas[1..]| && metas[1..][j] == rest.value
                 && forall i :: 0 <= i < j ==> metas[1..][i].name != name;
        assert metas[j + 1] == rest.value;
        Some(rest.value)
      else None
  }

  /** A row names a plugin the page carries. */
  predicate Installed(row: Row, metas: seq<Meta>) {
    Cell(row, 0).Some? && Listed(Cell(row, 0).value, metas)
  }

  /** The entry `addPlugin` gets for an installed plugin's row. */
  function PluginFor(row: Row, metas: seq<Meta>): (p: Plugin)
    requires Installed(row, metas)
    ensures p.name == row[0] && p.displayName == Cell(row, 1) && p.helpDocUrl == Cell(row, 2)
    ensures p.badge.cls == "enabled" <==> FirstMeta(row[0], metas).value.enabled == Some("true")
  {
    var name := Cell(row, 0).value;
    Plugin(name, Cell(row, 1), StatusBadge(FirstMeta(name, metas).value.enabled), Cell(row, 2))
  }

  /** The entries added for the first `n` rows. */
  function PluginsUpTo(rows: seq<Row>, metas: seq<Meta>, n: nat): seq<Plugin>
    requires n <= |rows|
  {
    if n == 0 then []
    else
      var row := rows[n - 1];
      PluginsUpTo(rows, metas, n - 1) + (if Installed(row, metas) then [PluginFor(row, metas)] else [])
  }

  lemma PluginsStep(rows: seq<Row>, metas: seq<Meta>, n: nat)
    requires n < |rows|
    ensures Installed(rows[n], metas) ==> PluginsUpTo(rows, metas, n + 1) == PluginsUpTo(rows, metas, n) + [PluginFor(rows[n], metas)]
    ensures !Installed(rows[n], metas) ==> PluginsUpTo(rows, metas, n + 1) == PluginsUpTo(rows, metas, n)
  {
    assert PluginsUpTo(rows, metas, n) + [] == PluginsUpTo(rows, metas, n);
  }

  /** The `rows.forEach` loop of `loadPluginContent`: after the header,
      every row whose first cell names a plugin on the page is added, in
      sheet order. */
  method LoadPlugins(rows: seq<Row>, metas: seq<Meta>) returns (plugins: seq<Plugin>)
    ensures plugins == PluginsUpTo(DropHeader(rows), metas, |DropHeader(rows)|)
  {
    var body := DropHeader(rows);
    plugins := [];
    var i := 0;
    while i < |body|
      invariant i <= |body|
      invariant plugins == PluginsUpTo(body, metas, i)
    {
      var row := body[i];
      PluginsStep(body, metas, i);
      var metaName := Cell(row, 0);
      if metaName.Some? && Listed(metaName.value, metas) {
        var status := FirstMeta(metaName.value, metas).value.enabled;
        plugins := plugins + [Plugin(metaName.value, Cell(row, 1), StatusBadge(status), Cell(row, 2))];
      }
      i := i + 1;
    }
  }

  /** The rows kept among the first `n`, by position. */
  function KeptUpTo(rows: seq<Row>, metas: seq<Meta>, n: nat): seq<nat>
    requires n <= |rows|
  {
    if n == 0 then []
    else KeptUpTo(rows, metas, n - 1) + (if Installed(rows[n - 1], metas) then [n - 1] else [])
  }

  /** The kept positions are exactly the installed rows before `n`, in
      increasing order. */
  lemma {:induction false} KeptExactly(rows: seq<Row>, metas: seq<Meta>, n: nat)
    requires n <= |rows|
    ensures forall a, b :: 0 <= a < b < |KeptUpTo(rows, metas, n)| ==> KeptUpTo(rows, metas, n)[a] < KeptUpTo(rows, metas, n)[b]
    ensures forall k :: 0 <= k < |KeptUpTo(rows, metas, n)| ==>
              KeptUpTo(rows, metas, n)[k] < n && Installed(rows[KeptUpTo(rows, metas, n)[k]], metas)
    ensures forall i :: 0 <= i < n && Installed(rows[i], metas) ==> i in KeptUpTo(rows, metas, n)
  {
    if n > 0 {
      KeptExactly(rows, metas, n - 1);
      var before := KeptUpTo(rows, metas, n - 1);
      if Installed(rows[n - 1], metas) {
        assert KeptUpTo(rows, metas, n) == before + [n - 1];
      } else {
        assert KeptUpTo(rows, metas, n) == before + [];
      }
    }
  }

  /** As many entries are added as rows are kept. */
  lemma {:induction false} KeptCount(rows: seq<Row>, metas: seq<Meta>, n: nat)
    requires n <= |rows|
    ensures |PluginsUpTo(rows, metas, n)| == |KeptUpTo(rows, metas, n)|
  {
    if n > 0 {
      KeptCount(rows, metas, n - 1);
      PluginsStep(rows, metas, n - 1);
    }
  }

  /** The `k`-th entry, for one `k`. */
  lemma {:induction false} PluginAt(rows: seq<Row>, metas: seq<Meta>, n: nat, k: nat)
    requires n <= |rows| && k < |PluginsUpTo(rows, metas, n)|
    ensures k < |KeptUpTo(rows, metas, n)|
    ensures var i := KeptUpTo(rows, metas, n)[k];
            i < n && Installed(rows[i], metas) && PluginsUpTo(rows, metas, n)[k] == PluginFor(rows[i], metas)
  {
    KeptCount(rows, metas, n);
    KeptCount(rows, metas, n - 1);
    PluginsStep(rows, metas, n - 1);
    var before := KeptUpTo(rows, metas, n - 1);
    var shown := PluginsUpTo(rows, metas, n - 1);
    if k < |shown| {
      PluginAt(rows, metas, n - 1, k);
      assert KeptUpTo(rows, metas, n)[k] == before[k];
      assert PluginsUpTo(rows, metas, n)[k] == shown[k];
    } else {
      assert KeptUpTo(rows, metas, n)[k] == n - 1;
    }
  }

  /** The `k`-th entry is the entry of the `k`-th kept row. */
  lemma PluginsOfKept(rows: seq<Row>, metas: seq<Meta>, n: nat)
    requires n <= |rows|
    ensures |PluginsUpTo(rows, metas, n)| == |KeptUpTo(rows, metas, n)|
    ensures forall k :: 0 <= k < |PluginsUpTo(rows, metas, n)| ==>
              var i := KeptUpTo(rows, metas, n)[k];
              i < n && Installed(rows[i], metas) && PluginsUpTo(rows, metas, n)[k] == PluginFor(rows[i], metas)
  {
    KeptCount(rows, metas, n);
    forall k | 0 <= k < |PluginsUpTo(rows, metas, n)|
      ensures var i := KeptUpTo(rows, metas, n)[k];
              i < n && Installed(rows[i], metas) && PluginsUpTo(rows, metas, n)[k] == PluginFor(rows[i], metas)
    {
      PluginAt(rows, metas, n, k);
    }
  }

  /** Every listed plugin is shown with its own tag's status. */
  lemma PluginBadges(rows: seq<Row>, metas: seq<Meta>, n: nat, k: nat)
    requires n <= |rows| && k < |PluginsUpTo(rows, metas, n)|
    ensures Listed(PluginsUpTo(rows, metas, n)[k].name, metas)
    ensures var p := PluginsUpTo(rows, metas, n)[k];
            p.badge.cls == "enabled" <==> FirstMeta(p.name, metas).value.enabled == Some("true")
  {
    PluginsOfKept(rows, metas, n);
    KeptExactly(rows, metas, n);
  }

  // ---------------------------------------------------------------------
  // loadAccordionContent

  /** A document entry of an accordion: the address its link opens, and
      its title. */
  datatype DocItem = DocItem(url: Option<string>, title: Option<string>)

  /** `const [link, title] = row`. */
  function DocItemOf(row: Row): (d: DocItem)
    ensures d.url == Cell(row, 0) && d.title == Cell(row, 1)
  {
    DocItem(Cell(row, 0), Cell(row, 1))
  }

  /** The `rows.forEach` loop of `loadAccordionContent` for one sheet:
      after the header, every row becomes one entry, in sheet order. */
  method BuildAccordion(rows: seq<Row>) returns (items: seq<DocItem>)
    ensures |items| == |DropHeader(rows)|
    ensures forall k :: 0 <= k < |items| ==> items[k].url == Cell(rows[k + 1], 0) && items[k].title == Cell(rows[k + 1], 1)
  {
    var body := DropHeader(rows);
    items := [];
    var rowIndex := 0;
    while rowIndex < |body|
      invariant rowIndex <= |body| && |items| == rowIndex
      invariant forall k :: 0 <= k < rowIndex ==> items[k] == DocItemOf(body[k])
    {
      var row := body[rowIndex];
      items := items + [DocItem(Cell(row, 0), Cell(row, 1))];
      rowIndex := rowIndex + 1;
    }
  }
}
