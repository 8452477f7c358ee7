/**
 * The selection rules of the HTML report: which matched components land in
 * which table, the icon shown for a status, and the list of style details.
 * Markup is kept as tokens.
 */
module ReportGenerator {
  import opened Basics
  import opened Comparator

  // ---------------------------------------------------------------------
  // Status icons
  // ---------------------------------------------------------------------

  datatype Icon = PassIcon | FailIcon | AuditIcon | NotApplicableIcon

  /** `_get_status_icon(status)`: one icon each for pass, fail and audit; N/A for anything else. */
  function StatusIcon(s: Status): (i: Icon)
    ensures i == PassIcon <==> s == Pass
    ensures i == FailIcon <==> s == Fail
    ensures i == AuditIcon <==> s == Audit
    ensures i == NotApplicableIcon <==> s != Pass && s != Fail && s != Audit
  {
    if s == Pass then PassIcon
    else if s == Fail then FailIcon
    else if s == Audit then AuditIcon
    else NotApplicableIcon
  }

  /** Different statuses show different icons. */
  lemma StatusIconInjective(a: Status, b: Status)
    requires StatusIcon(a) == StatusIcon(b)
    ensures a == b
  {
  }

  // ---------------------------------------------------------------------
  // Table rows
  // ---------------------------------------------------------------------

  /** The `filter_type` argument; any other string is `OtherFilter`. */
  datatype TableFilter = LayoutError | StyleAudit | LayoutSuccess | StyleSuccess | OtherFilter

  /** An entry of `report_parts`; `results` is `None` when `comparison_results` is missing. */
  datatype Part = Part(partIndex: int, results: Option<Report>)

  /** One component row of a table (and its detail row), tagged with its part. */
  datatype Row = Row(partIndex: int, component: Component)

  /** A table body: the placeholder row when nothing is selected, else header, rows and footer. */
  datatype Table = Placeholder | Rows(rows: seq<Row>)

  /** `comparison_results.get('matched_components', [])`. */
  function Matched(p: Part): seq<Component> {
    if p.results.Some? && p.results.value.Compared? then p.results.value.components else []
  }

  /** The filter's condition on one component. */
  predicate Selects(f: TableFilter, c: Component) {
    match f
    case LayoutError => c.layoutStatus == Fail
    case StyleAudit => c.styleStatus == Audit
    case LayoutSuccess => c.layoutStatus == Pass
    case StyleSuccess => c.styleStatus == Pass
    case OtherFilter => false
  }

  /** The rows of one part's selected components, in component order. */
  function PartRows(cs: seq<Component>, partIndex: int, f: TableFilter): (r: seq<Row>)
    ensures |r| <= |cs|
  {
    if cs == [] then []
    else PartRows(cs[..|cs| - 1], partIndex, f)
         + (if Selects(f, cs[|cs| - 1]) then [Row(partIndex, cs[|cs| - 1])] else [])
  }

  /** The rows of all parts, part by part. */
  function SelectedRows(parts: seq<Part>, f: TableFilter): seq<Row> {
    if parts == [] then []
    else
      var p := parts[|parts| - 1];
      SelectedRows(parts[..|parts| - 1], f) + PartRows(Matched(p), p.partIndex, f)
  }

  /** The inner loop of `_generate_table_content`: the rows of one part's components. */
  method AppendPartRows(rows: seq<Row>, components: seq<Component>, partIndex: int, f: TableFilter)
    returns (out: seq<Row>, added: bool)
    ensures out == rows + PartRows(components, partIndex, f)
    ensures added <==> PartRows(components, partIndex, f) != []
  {
    out := rows;
    added := false;
    for j := 0 to |components|
      invariant out == rows + PartRows(components[..j], partIndex, f)
      invariant added <==> PartRows(components[..j], partIndex, f) != []
    {
      PartRowsSnoc(components, j, partIndex, f);
      var comp := components[j];
      var shouldAdd := false;
      if f == LayoutError {
        shouldAdd := comp.layoutStatus == Fail;
      } else if f == StyleAudit {
        shouldAdd := comp.styleStatus == Audit;
      } else if f == LayoutSuccess {
        shouldAdd := comp.layoutStatus == Pass;
      } else if f == StyleSuccess {
        shouldAdd := comp.styleStatus == Pass;
      }
      if shouldAdd {
        out := out + [Row(partIndex, comp)];
        added := true;
      }
    }
    assert components[..|components|] == components;
  }

  lemma SelectedRowsSnoc(parts: seq<Part>, i: nat, f: TableFilter)
    requires i < |parts|
    ensures SelectedRows(parts[..i + 1], f) == SelectedRows(parts[..i], f) + PartRows(Matched(parts[i]), parts[i].partIndex, f)
  {
    assert parts[..i + 1][..i] == parts[..i];
  }

  lemma PartRowsSnoc(cs: seq<Component>, j: nat, partIndex: int, f: TableFilter)
    requires j < |cs|
    ensures PartRows(cs[..j + 1], partIndex, f)
            == PartRows(cs[..j], partIndex, f) + (if Selects(f, cs[j]) then [Row(partIndex, cs[j])] else [])
  {
    assert cs[..j + 1][..j] == cs[..j];
  }

  /** `_generate_table_content(report_parts, filter_type)`. */
  method GenerateTableContent(parts: seq<Part>, f: TableFilter) returns (t: Table)
    ensures t == if SelectedRows(parts, f) == [] then Placeholder else Rows(SelectedRows(parts, f))
  {
    var rows: seq<Row> := [];
    var hasData := false;
    for i := 0 to |parts|
      invariant rows == SelectedRows(parts[..i], f)
      invariant hasData <==> rows != []
    {
      SelectedRowsSnoc(parts, i, f);
      var added;
      rows, added := AppendPartRows(rows, Matched(parts[i]), parts[i].partIndex, f);
      hasData := hasData || added;
    }
    assert parts[..|parts|] == parts;
    if !hasData {
      return Placeholder;
    }
    return Rows(rows);
  }

  /** A part's rows are exactly its selected components. */
  lemma {:induction false} PartRowsMembers(cs: seq<Component>, partIndex: int, f: TableFilter, r: Row)
    ensures r in PartRows(cs, partIndex, f) <==> r.partIndex == partIndex && r.component in cs && Selects(f, r.component)
  {
    if cs != [] {
      var init := cs[..|cs| - 1];
      PartRowsMembers(init, partIndex, f, r);
      assert cs == init + [cs[|cs| - 1]];
    }
  }

  /** A row is in a table exactly when its component is matched in that part and passes the filter. */
  lemma {:induction false} SelectedRowsMembers(parts: seq<Part>, f: TableFilter, r: Row)
    ensures r in SelectedRows(parts, f) <==>
              exists i :: 0 <= i < |parts| && r.partIndex == parts[i].partIndex && r.component in Matched(parts[i])
                                           && Selects(f, r.component)
  {
    if parts != [] {
      var init := parts[..|parts| - 1];
      var p := parts[|parts| - 1];
      SelectedRowsMembers(init, f, r);
      PartRowsMembers(Matched(p), p.partIndex, f, r);
      assert forall i :: 0 <= i < |init| ==> init[i] == parts[i];
      if r in PartRows(Matched(p), p.partIndex, f) {
        assert parts[|parts| - 1] == p;
      }
    }
  }

  /** An unknown filter selects nothing, so its table is the placeholder. */
  lemma {:induction false} OtherFilterIsEmpty(parts: seq<Part>)
    ensures SelectedRows(parts, OtherFilter) == []
  {
    if parts != [] {
      OtherFilterIsEmpty(parts[..|parts| - 1]);
      OtherPartIsEmpty(Matched(parts[|parts| - 1]), parts[|parts| - 1].partIndex);
    }
  }

  lemma {:induction false} OtherPartIsEmpty(cs: seq<Component>, partIndex: int)
    ensures PartRows(cs, partIndex, OtherFilter) == []
  {
    if cs != [] {
      OtherPartIsEmpty(cs[..|cs| - 1], partIndex);
    }
  }

  /** Within a part, the error table has as many rows as the part's summary counts layout errors. */
  lemma {:induction false} ErrorRowsAreFailures(cs: seq<Component>, partIndex: int)
    ensures |PartRows(cs, partIndex, LayoutError)| == LayoutFailures(cs)
    ensures |PartRows(cs, partIndex, LayoutSuccess)| == LayoutPasses(cs)
    ensures |PartRows(cs, partIndex, StyleAudit)| == StyleAudits(cs)
  {
    if cs != [] {
      ErrorRowsAreFailures(cs[..|cs| - 1], partIndex);
    }
  }

  /** The summed error counts of the parts' summaries. */
  function ErrorTotal(parts: seq<Part>): int {
    if parts == [] then 0
    else
      var p := parts[|parts| - 1];
      ErrorTotal(parts[..|parts| - 1])
      + (if p.results.Some? && p.results.value.Compared? then p.results.value.summary.errorCount else 0)
  }

  /** A part whose results came from `compare_layouts` on at least one pair. */
  predicate FromCompareLayouts(p: Part) {
    p.results.Some? && p.results.value.Compared? ==>
      p.results.value.summary.errorCount == LayoutFailures(p.results.value.components)
  }

  /**
   * The layout-error table lists as many rows as the compared parts' summaries
   * count errors.
   */
  lemma {:induction false} ErrorTableMatchesSummaries(parts: seq<Part>)
    requires forall i :: 0 <= i < |parts| ==> FromCompareLayouts(parts[i])
    ensures |SelectedRows(parts, LayoutError)| == ErrorTotal(parts)
  {
    if parts != [] {
      var p := parts[|parts| - 1];
      ErrorTableMatchesSummaries(parts[..|parts| - 1]);
      ErrorRowsAreFailures(Matched(p), p.partIndex);
      assert FromCompareLayouts(parts[|parts| - 1]);
    }
  }

  /** The number of matched components over all parts. */
  function MatchedTotal(parts: seq<Part>): nat {
    if parts == [] then 0 else MatchedTotal(parts[..|parts| - 1]) + |Matched(parts[|parts| - 1])|
  }

  /** Every layout verdict is pass or fail, as `compare_layouts` produces them. */
  predicate LayoutDecided(parts: seq<Part>) {
    forall i, j :: 0 <= i < |parts| && 0 <= j < |Matched(parts[i])| ==>
      Matched(parts[i])[j].layoutStatus == Pass || Matched(parts[i])[j].layoutStatus == Fail
  }

  /** Every matched component appears in exactly one of the two layout tables. */
  lemma {:induction false} LayoutTablesPartition(parts: seq<Part>)
    requires LayoutDecided(parts)
    ensures |SelectedRows(parts, LayoutError)| + |SelectedRows(parts, LayoutSuccess)| == MatchedTotal(parts)
  {
    if parts != [] {
      var init := parts[..|parts| - 1];
      var p := parts[|parts| - 1];
      assert LayoutDecided(init) by {
        assert forall i :: 0 <= i < |init| ==> init[i] == parts[i];
      }
      LayoutTablesPartition(init);
      var cs := Matched(p);
      ErrorRowsAreFailures(cs, p.partIndex);
      assert forall j :: 0 <= j < |cs| ==> cs[j].layoutStatus == Pass || cs[j].layoutStatus == Fail by {
        assert parts[|parts| - 1] == p;
      }
      PassesAreTheRest(cs);
    }
  }

  // ---------------------------------------------------------------------
  // Style details
  // ---------------------------------------------------------------------

  /** The icon of a style line: equal values or a difference to look at. */
  datatype Mark = Same | Differs

  /** `<li><strong>key:</strong> icon Beklenen: expected | Gelen: got</li>`; `None` shows as N/A. */
  datatype StyleLine = StyleLine(key: StyleKey, mark: Mark, expected: Option<StyleValue>, got: Option<StyleValue>)

  /** The details cell: the fixed "style test not applicable" note, or the list. */
  datatype StyleDetails = NotApplicableNote | StyleList(lines: seq<StyleLine>)

  /** The text a missing key shows, and that a colour may also carry. */
  const NotAvailable: StyleValue := ColorValue("N/A")

  /**
   * `styles.get(key, "N/A")`, as the text it shows: `None` is the text N/A,
   * shown for a missing key and for a value that is that very text.
   */
  function Get(s: Styles, k: StyleKey): (v: Option<StyleValue>)
    ensures v.None? <==> k !in s || s[k] == NotAvailable
    ensures v.Some? ==> k in s && v.value == s[k]
  {
    if k in s && s[k] != NotAvailable then Some(s[k]) else None
  }

  /** No value of the dictionary is the text N/A. */
  predicate NoNotAvailable(s: Styles) {
    forall k :: k in s ==> s[k] != NotAvailable
  }

  /** The three keys in Python's sort order of their names. */
  const AllKeys: seq<StyleKey> := [BgColor, Color, Font]

  function KeyRank(k: StyleKey): nat {
    match k
    case BgColor => 0
    case Color => 1
    case Font => 2
  }

  /** `sorted(set(figma_styles.keys()) | set(app_styles.keys()))`. */
  function SortedKeys(figma: Styles, app: Styles): (r: seq<StyleKey>)
    ensures forall k :: k in r <==> k in figma || k in app
    ensures forall i, j :: 0 <= i < j < |r| ==> KeyRank(r[i]) < KeyRank(r[j])
  {
    var r := (if BgColor in figma || BgColor in app then [BgColor] else [])
             + (if Color in figma || Color in app then [Color] else [])
             + (if Font in figma || Font in app then [Font] else []);
    assert forall k :: k in r <==> k in figma || k in app by {
      forall k ensures k in r <==> k in figma || k in app {
        assert k.BgColor? || k.Color? || k.Font?;
      }
    }
    r
  }

  /** The line for one key, given the dictionaries the two values are read from. */
  function LineFor(k: StyleKey, expected: Styles, got: Styles): (l: StyleLine)
    ensures l.key == k && l.expected == Get(expected, k) && l.got == Get(got, k)
    ensures l.mark == Same <==> Get(expected, k) == Get(got, k)
  {
    var e, g := Get(expected, k), Get(got, k);
    StyleLine(k, if e == g then Same else Differs, e, g)
  }

  /** The `<li>` loop: one line per key, values read from `expected` and `got`. */
  method StyleLines(keys: seq<StyleKey>, expected: Styles, got: Styles) returns (lines: seq<StyleLine>)
    ensures |lines| == |keys|
    ensures forall i :: 0 <= i < |keys| ==> lines[i] == LineFor(keys[i], expected, got)
  {
    lines := [];
    for i := 0 to |keys|
      invariant |lines| == i
      invariant forall j :: 0 <= j < i ==> lines[j] == LineFor(keys[j], expected, got)
    {
      var e, g := Get(expected, keys[i]), Get(got, keys[i]);
      var mark := if e == g then Same else Differs;
      lines := lines + [StyleLine(keys[i], mark, e, g)];
    }
  }

  /**
   * `_format_style_details(style_data)` as written: both values of every line
   * are read from the design's dictionary, so every line is marked the same.
   */
  method FormatStyleDetailsAsWritten(style: StyleResult) returns (d: StyleDetails)
    ensures style.status == NotApplicable <==> d == NotApplicableNote
    ensures d.StyleList? ==>
              && |d.lines| == |SortedKeys(style.figma, style.app)|
              && (forall i :: 0 <= i < |d.lines| ==> d.lines[i] == LineFor(SortedKeys(style.figma, style.app)[i], style.figma, style.figma))
              && (forall i :: 0 <= i < |d.lines| ==> d.lines[i].mark == Same && d.lines[i].got == d.lines[i].expected)
  {
    if style.status == NotApplicable {
      return NotApplicableNote;
    }
    var keys := SortedKeys(style.figma, style.app);
    var lines := StyleLines(keys, style.figma, style.figma);
    return StyleList(lines);
  }

  /** `_format_style_details(style_data)` with the application's value read from the application's dictionary. */
  method FormatStyleDetails(style: StyleResult) returns (d: StyleDetails)
    ensures style.status == NotApplicable <==> d == NotApplicableNote
    ensures d.StyleList? ==>
              && |d.lines| == |SortedKeys(style.figma, style.app)|
              && (forall i :: 0 <= i < |d.lines| ==> d.lines[i] == LineFor(SortedKeys(style.figma, style.app)[i], style.figma, style.app))
  {
    if style.status == NotApplicable {
      return NotApplicableNote;
    }
    var keys := SortedKeys(style.figma, style.app);
    var lines := StyleLines(keys, style.figma, style.app);
    return StyleList(lines);
  }

  /** Every line of the corrected list is marked the same exactly when the two dictionaries are equal. */
  lemma AllSameIffEqual(figma: Styles, app: Styles)
    requires NoNotAvailable(figma) && NoNotAvailable(app)
    ensures var keys := SortedKeys(figma, app);
            (forall i :: 0 <= i < |keys| ==> LineFor(keys[i], figma, app).mark == Same) <==> figma == app
  {
    var keys := SortedKeys(figma, app);
    if forall i :: 0 <= i < |keys| ==> LineFor(keys[i], figma, app).mark == Same {
      forall k | k in figma || k in app
        ensures k in figma && k in app && figma[k] == app[k]
      {
        var i :| 0 <= i < |keys| && keys[i] == k;
        assert LineFor(keys[i], figma, app).mark == Same;
      }
      assert figma.Keys == app.Keys;
      assert figma == app;
    }
  }

  /**
   * With the correction, the style details of a pair that asks for a style
   * audit show a difference, and those of a passing pair show none.
   */
  lemma CorrectedDetailsShowAudit(figma: Props, app: Props)
    requires figma.color != Some("N/A") && figma.backgroundColor != Some("N/A")
    requires app.color != Some("N/A") && app.backgroundColor != Some("N/A")
    ensures var s := StyleVerdict(figma, app);
            var keys := SortedKeys(s.figma, s.app);
            && (s.status == Audit ==> exists i :: 0 <= i < |keys| && LineFor(keys[i], s.figma, s.app).mark == Differs)
            && (s.status == Pass ==> forall i :: 0 <= i < |keys| ==> LineFor(keys[i], s.figma, s.app).mark == Same)
  {
    var s := StyleVerdict(figma, app);
    AllSameIffEqual(s.figma, s.app);
  }

  /**
   * Even with the correction, a design colour that is the text "N/A" against
   * no application colour asks for an audit, yet its line shows N/A twice
   * and is marked the same.
   */
  lemma NotAvailableColourShowsSame()
    ensures var figma := Props(map[], Some("N/A"), None, None);
            var app := Props(map[], None, None, None);
            var s := StyleVerdict(figma, app);
            && s.status == Audit
            && SortedKeys(s.figma, s.app) == [Color]
            && LineFor(Color, s.figma, s.app) == StyleLine(Color, Same, None, None)
  {
    var figma := Props(map[], Some("N/A"), None, None);
    var app := Props(map[], None, None, None);
    var s := StyleVerdict(figma, app);
    assert Color in s.figma && Color !in s.app;
    assert s.figma.Keys == {Color};
    assert s.app.Keys == {};
  }

  /**
   * As written, a pair whose design colour is black and whose application
   * colour is white asks for a style audit, yet its only style line is marked
   * the same and shows black as the application's value.
   */
  lemma AsWrittenHidesAudit()
    ensures var figma := Props(map[], Some("#000000"), None, None);
            var app := Props(map[], Some("#FFFFFF"), None, None);
            var s := StyleVerdict(figma, app);
            var keys := SortedKeys(s.figma, s.app);
            && s.status == Audit
            && keys == [Color]
            && LineFor(Color, s.figma, s.figma) == StyleLine(Color, Same, Some(ColorValue("#000000")), Some(ColorValue("#000000")))
            && LineFor(Color, s.figma, s.app).mark == Differs
  {
    var figma := Props(map[], Some("#000000"), None, None);
    var app := Props(map[], Some("#FFFFFF"), None, None);
    var s := StyleVerdict(figma, app);
    assert s.figma[Color] == ColorValue("#000000");
    assert s.app[Color] == ColorValue("#FFFFFF");
    assert s.figma.Keys == {Color};
    assert s.app.Keys == {Color};
    assert "#000000" != "#FFFFFF" by {
      assert "#000000"[1] != "#FFFFFF"[1];
    }
  }
}
