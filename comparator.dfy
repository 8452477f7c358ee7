/**
 * The layout and style comparator of the design auditor (comparator.py).
 *
 * `compare_layouts` receives pairs that are already matched (one design-side
 * record and one app-side record each), orders them by the design `y`, runs
 * four checks on every pair (dimensions, vertical spacing to the previous
 * pair, horizontal paddings, style) and tallies a summary.  Every tolerance
 * is an absolute number of pixels.
 */
module Comparator {
  import opened Basics

  /** The tolerance the auditor passes by default, in pixels (config.py). */
  const DefaultTolerancePx: real := 10.0

  /** One side of a matched pair: `figma_analysis` or `app_analysis`. */
  datatype Props = Props(
    bounds: Bounds,
    color: Option<string>,            // estimated_color
    fontSizeDp: Option<real>,         // estimated_fontSize_dp
    backgroundColor: Option<string>)  // estimated_backgroundColor

  /** An element of the matched list; `name` is None when the key is absent. */
  datatype Pair = Pair(name: Option<string>, figma: Props, app: Props)

  datatype Status = Pass | Fail | Audit | NotApplicable

  datatype Measure = Width | Height | LeftPadding | RightPadding | Spacing

  /**
   * One entry of a failure message: the expected pixels, the design value
   * they were computed from and the pixels received (the message also shows
   * the difference `actualPx - expectedPx`).
   */
  datatype Diff = Diff(measure: Measure, expectedPx: int, designValue: real, actualPx: real)

  /** The `message` of a check, as a token instead of the formatted text. */
  datatype Message =
    | Ok                                       // "OK"
    | OkPadding(leftPx: real, rightPx: real)   // "OK (Sol: …px, Sağ: …px)"
    | OkSpacing(gapPx: real)                   // "OK (Boşluk: …px)"
    | FirstComponent                           // "İlk bileşen"
    | Diffs(items: seq<Diff>)                  // the failing entries, joined by ", "

  datatype CheckResult = CheckResult(status: Status, message: Message)

  // ---------------------------------------------------------------------
  // Shared pixel arithmetic
  // ---------------------------------------------------------------------

  /** A design value converted to pixels: `round(value * scale_factor)`. */
  function ExpectedPx(designValue: real, scale: real): int
  {
    Round(designValue * scale)
  }

  /** `abs(expected - actual) > tolerance`. */
  predicate Exceeds(expectedPx: int, actualPx: real, tolerance: real) {
    Abs(expectedPx as real - actualPx) > tolerance
  }

  // ---------------------------------------------------------------------
  // _check_dimensions
  // ---------------------------------------------------------------------

  /** The keys `_check_dimensions` visits, in order. */
  const DimensionKeys: seq<Key> := [W, H]

  /** Dimension `k` is present on both sides and off by more than the tolerance. */
  predicate DimensionFails(k: Key, figma: Props, app: Props, scale: real, tolerance: real) {
    && k in figma.bounds && k in app.bounds
    && Exceeds(ExpectedPx(figma.bounds[k], scale), app.bounds[k], tolerance)
  }

  /** The message entry one dimension key contributes (none when it passes or is missing). */
  function DimensionDiff(k: Key, figma: Props, app: Props, scale: real, tolerance: real): seq<Diff>
    requires k == W || k == H
  {
    if DimensionFails(k, figma, app, scale, tolerance) then
      [Diff(if k == W then Width else Height, ExpectedPx(figma.bounds[k], scale), figma.bounds[k], app.bounds[k])]
    else []
  }

  function DimensionDiffs(keys: seq<Key>, figma: Props, app: Props, scale: real, tolerance: real): seq<Diff>
    requires forall i :: 0 <= i < |keys| ==> keys[i] == W || keys[i] == H
  {
    if keys == [] then []
    else DimensionDiffs(keys[..|keys| - 1], figma, app, scale, tolerance)
         + DimensionDiff(keys[|keys| - 1], figma, app, scale, tolerance)
  }

  /** What `_check_dimensions` returns. */
  function Dimensions(figma: Props, app: Props, scale: real, tolerance: real): (r: CheckResult)
    ensures r.status == Pass || r.status == Fail
    ensures r.status == Fail <==>
              DimensionFails(W, figma, app, scale, tolerance) || DimensionFails(H, figma, app, scale, tolerance)
    ensures r.status == Pass <==> r.message == Ok
    ensures r.status == Fail ==> r.message.Diffs? && 1 <= |r.message.items| <= 2
    ensures r.message.Diffs? ==>
              forall d :: d in r.message.items ==>
                && (d.measure == Width || d.measure == Height)
                && d.expectedPx == ExpectedPx(d.designValue, scale)
                && Exceeds(d.expectedPx, d.actualPx, tolerance)
  {
    var diffs := DimensionDiff(W, figma, app, scale, tolerance) + DimensionDiff(H, figma, app, scale, tolerance);
    if diffs == [] then CheckResult(Pass, Ok) else CheckResult(Fail, Diffs(diffs))
  }

  /** `_check_dimensions`: loops over `w` and `h`, skipping keys missing on either side. */
  method CheckDimensions(figma: Props, app: Props, scale: real, tolerance: real) returns (r: CheckResult)
    ensures r == Dimensions(figma, app, scale, tolerance)
  {
    var diffs: seq<Diff> := [];
    var status := Pass;
    for i := 0 to |DimensionKeys|
      invariant diffs == DimensionDiffs(DimensionKeys[..i], figma, app, scale, tolerance)
      invariant status == (if diffs == [] then Pass else Fail)
    {
      var k := DimensionKeys[i];
      assert DimensionKeys[..i + 1][..i] == DimensionKeys[..i];
      if k !in figma.bounds || k !in app.bounds {
        continue;
      }
      var expectedPx := ExpectedPx(figma.bounds[k], scale);
      var actualPx := app.bounds[k];
      if Exceeds(expectedPx, actualPx, tolerance) {
        status := Fail;
        diffs := diffs + [Diff(if k == W then Width else Height, expectedPx, figma.bounds[k], actualPx)];
      }
    }
    assert DimensionKeys[..|DimensionKeys|] == DimensionKeys;
    assert DimensionKeys[..1] == [W] && DimensionKeys[..1][..0] == [];
    r := if status == Pass then CheckResult(Pass, Ok) else CheckResult(Fail, Diffs(diffs));
  }

  // ---------------------------------------------------------------------
  // _check_horizontal_paddings
  // ---------------------------------------------------------------------

  /** The keys `_check_horizontal_paddings` reads on both sides. */
  predicate PaddingReadable(figma: Props, app: Props) {
    X in figma.bounds && W in figma.bounds && X in app.bounds && W in app.bounds
  }

  /** Right padding: `container_width - (x + w)`. */
  function RightGap(b: Bounds, containerWidth: real): real
    requires X in b && W in b
  {
    containerWidth - (b[X] + b[W])
  }

  predicate LeftFails(figma: Props, app: Props, scale: real, tolerance: real)
    requires PaddingReadable(figma, app)
  {
    Exceeds(ExpectedPx(figma.bounds[X], scale), app.bounds[X], tolerance)
  }

  predicate RightFails(figma: Props, app: Props, figmaWidth: real, appWidth: real, scale: real, tolerance: real)
    requires PaddingReadable(figma, app)
  {
    Exceeds(ExpectedPx(RightGap(figma.bounds, figmaWidth), scale), RightGap(app.bounds, appWidth), tolerance)
  }

  /** What `_check_horizontal_paddings` returns. */
  function Paddings(figma: Props, app: Props, figmaWidth: real, appWidth: real, scale: real, tolerance: real)
    : (r: CheckResult)
    requires PaddingReadable(figma, app)
    ensures r.status == Pass || r.status == Fail
    ensures r.status == Fail <==>
              LeftFails(figma, app, scale, tolerance) || RightFails(figma, app, figmaWidth, appWidth, scale, tolerance)
    ensures r.status == Pass <==> r.message == OkPadding(app.bounds[X], RightGap(app.bounds, appWidth))
    ensures r.status == Fail ==> r.message.Diffs? && 1 <= |r.message.items| <= 2
    ensures r.message.Diffs? ==>
              && (LeftFails(figma, app, scale, tolerance) <==> r.message.items[0].measure == LeftPadding)
              && forall d :: d in r.message.items ==>
                   && (d.measure == LeftPadding || d.measure == RightPadding)
                   && d.expectedPx == ExpectedPx(d.designValue, scale)
                   && Exceeds(d.expectedPx, d.actualPx, tolerance)
  {
    var left :=
      if LeftFails(figma, app, scale, tolerance) then
        [Diff(LeftPadding, ExpectedPx(figma.bounds[X], scale), figma.bounds[X], app.bounds[X])]
      else [];
    var right :=
      if RightFails(figma, app, figmaWidth, appWidth, scale, tolerance) then
        [Diff(RightPadding, ExpectedPx(RightGap(figma.bounds, figmaWidth), scale),
              RightGap(figma.bounds, figmaWidth), RightGap(app.bounds, appWidth))]
      else [];
    if left + right == [] then CheckResult(Pass, OkPadding(app.bounds[X], RightGap(app.bounds, appWidth)))
    else CheckResult(Fail, Diffs(left + right))
  }

  /** `_check_horizontal_paddings`: left edge, then right edge, each against its own container width. */
  method CheckHorizontalPaddings(figma: Props, app: Props, figmaWidth: real, appWidth: real, scale: real, tolerance: real)
    returns (r: CheckResult)
    requires PaddingReadable(figma, app)
    ensures r == Paddings(figma, app, figmaWidth, appWidth, scale, tolerance)
  {
    var diffs: seq<Diff> := [];
    var status := Pass;

    var figmaX := figma.bounds[X];
    var expectedX := ExpectedPx(figmaX, scale);
    var appX := app.bounds[X];
    if Exceeds(expectedX, appX, tolerance) {
      status := Fail;
      diffs := diffs + [Diff(LeftPadding, expectedX, figmaX, appX)];
    }

    var figmaRight := RightGap(figma.bounds, figmaWidth);
    var expectedRight := ExpectedPx(figmaRight, scale);
    var appRight := RightGap(app.bounds, appWidth);
    if Exceeds(expectedRight, appRight, tolerance) {
      status := Fail;
      diffs := diffs + [Diff(RightPadding, expectedRight, figmaRight, appRight)];
    }

    if status == Pass {
      r := CheckResult(Pass, OkPadding(appX, appRight));
    } else {
      r := CheckResult(Fail, Diffs(diffs));
    }
  }

  /** The record seen in a mirror: the left padding becomes the right one. */
  function Mirrored(p: Props, containerWidth: real): (m: Props)
    requires X in p.bounds && W in p.bounds
    ensures X in m.bounds && W in m.bounds
    ensures m.bounds[X] == RightGap(p.bounds, containerWidth) && RightGap(m.bounds, containerWidth) == p.bounds[X]
  {
    p.(bounds := p.bounds[X := RightGap(p.bounds, containerWidth)])
  }

  /** The padding verdict treats both screen edges alike. */
  lemma PaddingsMirrorSymmetric(figma: Props, app: Props, figmaWidth: real, appWidth: real, scale: real, tolerance: real)
    requires PaddingReadable(figma, app)
    ensures Paddings(Mirrored(figma, figmaWidth), Mirrored(app, appWidth), figmaWidth, appWidth, scale, tolerance).status
         == Paddings(figma, app, figmaWidth, appWidth, scale, tolerance).status
  {
    var mf, ma := Mirrored(figma, figmaWidth), Mirrored(app, appWidth);
    assert LeftFails(mf, ma, scale, tolerance) == RightFails(figma, app, figmaWidth, appWidth, scale, tolerance);
    assert RightFails(mf, ma, figmaWidth, appWidth, scale, tolerance) == LeftFails(figma, app, scale, tolerance);
  }

  // ---------------------------------------------------------------------
  // _check_vertical_spacing
  // ---------------------------------------------------------------------

  /** The keys `_check_vertical_spacing` reads. */
  predicate SpacingReadable(prev: Pair, cur: Pair) {
    && Y in prev.figma.bounds && H in prev.figma.bounds && Y in cur.figma.bounds
    && Y in prev.app.bounds && H in prev.app.bounds && Y in cur.app.bounds
  }

  /** The gap from the previous element's bottom to the current top; negative when they overlap. */
  function Gap(prev: Bounds, cur: Bounds): real
    requires Y in prev && H in prev && Y in cur
  {
    cur[Y] - (prev[Y] + prev[H])
  }

  /** What `_check_vertical_spacing` returns. */
  function VerticalSpacing(prev: Pair, cur: Pair, scale: real, tolerance: real): (r: CheckResult)
    requires SpacingReadable(prev, cur)
    ensures r.status == Pass || r.status == Fail
    ensures r.status == Pass <==>
              !Exceeds(ExpectedPx(Gap(prev.figma.bounds, cur.figma.bounds), scale),
                       Gap(prev.app.bounds, cur.app.bounds), tolerance)
    ensures r.status == Pass ==> r.message == OkSpacing(Gap(prev.app.bounds, cur.app.bounds))
    ensures r.status == Fail ==>
              r.message == Diffs([Diff(Spacing, ExpectedPx(Gap(prev.figma.bounds, cur.figma.bounds), scale),
                                       Gap(prev.figma.bounds, cur.figma.bounds), Gap(prev.app.bounds, cur.app.bounds))])
  {
    var figmaGap := Gap(prev.figma.bounds, cur.figma.bounds);
    var appGap := Gap(prev.app.bounds, cur.app.bounds);
    var expected := ExpectedPx(figmaGap, scale);
    if !Exceeds(expected, appGap, tolerance) then CheckResult(Pass, OkSpacing(appGap))
    else CheckResult(Fail, Diffs([Diff(Spacing, expected, figmaGap, appGap)]))
  }

  /** Moves a record down by `dy`. */
  function ShiftedDown(p: Props, dy: real): (q: Props)
    requires Y in p.bounds
    ensures q.bounds.Keys == p.bounds.Keys
  {
    p.(bounds := p.bounds[Y := p.bounds[Y] + dy])
  }

  /**
   * Spacing compares gaps, not positions: moving both app elements of two
   * consecutive pairs by the same amount leaves the verdict unchanged.
   */
  lemma SpacingIgnoresCommonShift(prev: Pair, cur: Pair, dy: real, scale: real, tolerance: real)
    requires SpacingReadable(prev, cur)
    ensures SpacingReadable(prev.(app := ShiftedDown(prev.app, dy)), cur.(app := ShiftedDown(cur.app, dy)))
    ensures VerticalSpacing(prev.(app := ShiftedDown(prev.app, dy)), cur.(app := ShiftedDown(cur.app, dy)), scale, tolerance)
         == VerticalSpacing(prev, cur, scale, tolerance)
  {
    var p', c' := prev.(app := ShiftedDown(prev.app, dy)), cur.(app := ShiftedDown(cur.app, dy));
    assert Gap(p'.app.bounds, c'.app.bounds) == Gap(prev.app.bounds, cur.app.bounds);
  }

  /**
   * Overlapping elements give negative gaps, which are compared as they are:
   * a design overlap of 30 against touching app elements fails, where
   * clamping both gaps to zero would have passed.
   */
  lemma OverlapIsNotClamped()
    ensures
      var prev := Pair(None, Props(map[Y := 0.0, H := 50.0], None, None, None),
                             Props(map[Y := 0.0, H := 50.0], None, None, None));
      var cur := Pair(None, Props(map[Y := 20.0, H := 50.0], None, None, None),
                            Props(map[Y := 50.0, H := 50.0], None, None, None));
      VerticalSpacing(prev, cur, 1.0, DefaultTolerancePx).status == Fail
  {
  }

  // ---------------------------------------------------------------------
  // _check_styles
  // ---------------------------------------------------------------------

  /** Keys of a style dictionary, declared in the order Python sorts their names: "bgColor" < "color" < "font". */
  datatype StyleKey = BgColor | Color | Font

  /**
   * A style value: a colour string, or a font size formatted `f"{v:.1f}dp"`,
   * kept as the number of tenths it shows and whether it shows a minus sign
   * (a value just below zero shows "-0.0dp", which differs from "0.0dp").
   */
  datatype StyleValue = ColorValue(text: string) | FontValue(tenthsDp: int, negative: bool)

  type Styles = map<StyleKey, StyleValue>

  datatype StyleResult = StyleResult(status: Status, figma: Styles, app: Styles)

  /** Truthiness of an optional string field. */
  predicate Given(s: Option<string>) {
    s.Some? && s.value != ""
  }

  /** Truthiness of an optional numeric field. */
  predicate GivenSize(v: Option<real>) {
    v.Some? && v.value != 0.0
  }

  /** The digits of `f"{v:.1f}"`, as the number of tenths they show. */
  function OneDecimal(v: real): (tenths: int)
    ensures Abs(tenths as real - v * 10.0) <= 0.5
  {
    Round(v * 10.0)
  }

  /** `f"{v:.1f}dp"`: the digits, and the minus sign Python shows for every negative value, even one that rounds to zero. */
  function FontOf(v: real): (f: StyleValue)
    ensures f.FontValue? && f.tenthsDp == OneDecimal(v)
    ensures f.negative <==> v < 0.0
  {
    FontValue(OneDecimal(v), v < 0.0)
  }

  /** Two font sizes show the same text exactly when they round to the same tenths on the same side of zero. */
  lemma FontOfSame(u: real, v: real)
    ensures FontOf(u) == FontOf(v) <==> OneDecimal(u) == OneDecimal(v) && (u < 0.0 <==> v < 0.0)
  {
  }

  /** -0.04 shows "-0.0dp" and 0.04 shows "0.0dp": equal digits, yet different text. */
  lemma SignedZeroFonts()
    ensures OneDecimal(-0.04) == OneDecimal(0.04) == 0
    ensures FontOf(-0.04) != FontOf(0.04)
  {
    RoundOfSmall(-0.4);
    RoundOfSmall(0.4);
  }

  lemma RoundOfSmall(x: real)
    requires -0.5 < x < 0.5
    ensures Round(x) == 0
  {
  }

  predicate HasStyle(p: Props) {
    Given(p.color) || GivenSize(p.fontSizeDp) || Given(p.backgroundColor)
  }

  /** The style dictionary collected from one side. */
  function StylesOf(p: Props): (s: Styles)
    ensures Color in s <==> Given(p.color)
    ensures Font in s <==> GivenSize(p.fontSizeDp)
    ensures BgColor in s <==> Given(p.backgroundColor)
    ensures Color in s ==> s[Color] == ColorValue(p.color.value)
    ensures Font in s ==> s[Font] == FontOf(p.fontSizeDp.value)
    ensures BgColor in s ==> s[BgColor] == ColorValue(p.backgroundColor.value)
    ensures s == map[] <==> !HasStyle(p)
  {
    var s0: Styles := if Given(p.color) then map[Color := ColorValue(p.color.value)] else map[];
    var s1 := if GivenSize(p.fontSizeDp) then s0[Font := FontOf(p.fontSizeDp.value)] else s0;
    if Given(p.backgroundColor) then s1[BgColor := ColorValue(p.backgroundColor.value)] else s1
  }

  /** What `_check_styles` returns: an audit verdict, never a failure. */
  function StyleVerdict(figma: Props, app: Props): (r: StyleResult)
    ensures r.status != Fail
    ensures r.status == NotApplicable <==> !HasStyle(figma) && !HasStyle(app)
    ensures r.status == Audit <==> StylesOf(figma) != StylesOf(app)
    ensures r.status == Pass <==> (HasStyle(figma) || HasStyle(app)) && StylesOf(figma) == StylesOf(app)
    ensures r.figma == StylesOf(figma) && r.app == StylesOf(app)
  {
    var f, a := StylesOf(figma), StylesOf(app);
    if f == map[] && a == map[] then StyleResult(NotApplicable, map[], map[])
    else if f != a then StyleResult(Audit, f, a)
    else StyleResult(Pass, f, a)
  }

  /** A design font of -0.04 dp against an application font of 0.04 dp asks for an audit: "-0.0dp" is not "0.0dp". */
  lemma SignedZeroFontAudits()
    ensures StyleVerdict(Props(map[], None, Some(-0.04), None), Props(map[], None, Some(0.04), None)).status == Audit
  {
    var figma, app := Props(map[], None, Some(-0.04), None), Props(map[], None, Some(0.04), None);
    SignedZeroFonts();
    assert StylesOf(figma)[Font] != StylesOf(app)[Font];
  }

  // ---------------------------------------------------------------------
  // The stable sort by design y (`sorted(..., key=...['bounds']['y'])`)
  // ---------------------------------------------------------------------

  /** The sort key `pair['figma_analysis']['bounds']['y']` is present. */
  predicate HasDesignY(p: Pair) {
    Y in p.figma.bounds
  }

  predicate AllHaveDesignY(ps: seq<Pair>) {
    forall i :: 0 <= i < |ps| ==> HasDesignY(ps[i])
  }

  /** The sort key; the sort is only run when every pair has one, so the default never shows. */
  function DesignY(p: Pair): real {
    if Y in p.figma.bounds then p.figma.bounds[Y] else 0.0
  }

  predicate SortedByY(ps: seq<Pair>) {
    forall i, j :: 0 <= i < j < |ps| ==> DesignY(ps[i]) <= DesignY(ps[j])
  }

  /** The pairs whose design y is `y`, in their order in `ps`. */
  function WithDesignY(ps: seq<Pair>, y: real): seq<Pair> {
    if ps == [] then [] else AtY(ps[0], y) + WithDesignY(ps[1..], y)
  }

  /** `[p]` when `p` has design y `y`, else nothing. */
  function AtY(p: Pair, y: real): seq<Pair> {
    if DesignY(p) == y then [p] else []
  }

  /** Inserts `p` after every element whose design y is not larger. */
  function InsertByY(p: Pair, s: seq<Pair>): (r: seq<Pair>)
    ensures |r| == |s| + 1
  {
    if s == [] then [p]
    else if DesignY(p) < DesignY(s[0]) then [p] + s
    else
      assert s == [s[0]] + s[1..];
      [s[0]] + InsertByY(p, s[1..])
  }

  /** `sorted(pairs, key=design y)`; Python's sort is stable. */
  function SortByY(ps: seq<Pair>): (r: seq<Pair>)
    ensures |r| == |ps|
  {
    if ps == [] then [] else InsertByY(ps[|ps| - 1], SortByY(ps[..|ps| - 1]))
  }

  /** Inserting adds exactly the one pair. */
  lemma {:induction false} InsertByYPermutes(p: Pair, s: seq<Pair>)
    ensures multiset(InsertByY(p, s)) == multiset(s) + multiset{p}
  {
    if s == [] {
    } else if DesignY(p) < DesignY(s[0]) {
      assert InsertByY(p, s) == [p] + s;
    } else {
      var rest := InsertByY(p, s[1..]);
      InsertByYPermutes(p, s[1..]);
      assert InsertByY(p, s) == [s[0]] + rest;
      assert s == [s[0]] + s[1..];
      calc {
        multiset(InsertByY(p, s));
        multiset{s[0]} + multiset(rest);
        multiset{s[0]} + (multiset(s[1..]) + multiset{p});
        (multiset{s[0]} + multiset(s[1..])) + multiset{p};
        multiset(s) + multiset{p};
      }
    }
  }

  /** `SortByY` returns a permutation of its input. */
  lemma {:induction false} SortByYPermutes(ps: seq<Pair>)
    ensures multiset(SortByY(ps)) == multiset(ps)
  {
    if ps != [] {
      var init := ps[..|ps| - 1];
      SortByYPermutes(init);
      InsertByYPermutes(ps[|ps| - 1], SortByY(init));
      assert ps == init + [ps[|ps| - 1]];
    }
  }

  lemma {:induction false} InsertByYSorted(p: Pair, s: seq<Pair>)
    requires SortedByY(s)
    ensures SortedByY(InsertByY(p, s))
  {
    if s == [] {
    } else if DesignY(p) < DesignY(s[0]) {
      SortedCons(p, s);
    } else {
      var rest := InsertByY(p, s[1..]);
      SortedTail(s);
      InsertByYSorted(p, s[1..]);
      InsertedAbove(p, s);
      SortedCons(s[0], rest);
    }
  }

  lemma SortedTail(s: seq<Pair>)
    requires s != [] && SortedByY(s)
    ensures SortedByY(s[1..])
    ensures forall k :: 0 <= k < |s[1..]| ==> DesignY(s[0]) <= DesignY(s[1..][k])
  {
  }

  lemma SortedCons(x: Pair, s: seq<Pair>)
    requires SortedByY(s)
    requires forall k :: 0 <= k < |s| ==> DesignY(x) <= DesignY(s[k])
    ensures SortedByY([x] + s)
  {
    var r := [x] + s;
    forall i, j | 0 <= i < j < |r|
      ensures DesignY(r[i]) <= DesignY(r[j])
    {
      assert r[j] == s[j - 1];
      if i > 0 {
        assert r[i] == s[i - 1];
      }
    }
  }

  /** Everything in the inserted tail is at or below the head it goes after. */
  lemma InsertedAbove(p: Pair, s: seq<Pair>)
    requires s != [] && SortedByY(s) && DesignY(p) >= DesignY(s[0])
    ensures forall k :: 0 <= k < |InsertByY(p, s[1..])| ==> DesignY(s[0]) <= DesignY(InsertByY(p, s[1..])[k])
  {
    var rest := InsertByY(p, s[1..]);
    InsertByYPermutes(p, s[1..]);
    SortedTail(s);
    forall k | 0 <= k < |rest|
      ensures DesignY(s[0]) <= DesignY(rest[k])
    {
      assert rest[k] in multiset(rest);
      assert rest[k] in multiset(s[1..]) || rest[k] == p;
    }
  }

  /** `SortByY` returns its input in ascending design y. */
  lemma {:induction false} SortByYSorted(ps: seq<Pair>)
    ensures SortedByY(SortByY(ps))
  {
    if ps != [] {
      SortByYSorted(ps[..|ps| - 1]);
      InsertByYSorted(ps[|ps| - 1], SortByY(ps[..|ps| - 1]));
    }
  }

  /** Sorting keeps every pair, so it keeps every pair's sort key. */
  lemma SortByYKeepsKeys(ps: seq<Pair>)
    requires AllHaveDesignY(ps)
    ensures AllHaveDesignY(SortByY(ps))
  {
    var r := SortByY(ps);
    SortByYPermutes(ps);
    forall i | 0 <= i < |r|
      ensures HasDesignY(r[i])
    {
      assert r[i] in multiset(ps);
      var k :| 0 <= k < |ps| && ps[k] == r[i];
    }
  }

  lemma ConcatAssoc(a: seq<Pair>, b: seq<Pair>, c: seq<Pair>)
    ensures a + (b + c) == (a + b) + c
  {
    var l, r := a + (b + c), (a + b) + c;
    forall i | 0 <= i < |l|
      ensures l[i] == r[i]
    {
      if i >= |a| + |b| {
        assert l[i] == c[i - |a| - |b|];
      }
    }
  }

  lemma {:induction false} WithDesignYConcat(a: seq<Pair>, b: seq<Pair>, y: real)
    ensures WithDesignY(a + b, y) == WithDesignY(a, y) + WithDesignY(b, y)
  {
    if a == [] {
      assert a + b == b;
    } else {
      var ab := a + b;
      assert ab[0] == a[0];
      assert ab[1..] == a[1..] + b;
      WithDesignYConcat(a[1..], b, y);
      calc {
        WithDesignY(ab, y);
        AtY(a[0], y) + WithDesignY(a[1..] + b, y);
        AtY(a[0], y) + (WithDesignY(a[1..], y) + WithDesignY(b, y));
        { ConcatAssoc(AtY(a[0], y), WithDesignY(a[1..], y), WithDesignY(b, y)); }
        (AtY(a[0], y) + WithDesignY(a[1..], y)) + WithDesignY(b, y);
      }
    }
  }

  lemma {:induction false} WithDesignYAbove(s: seq<Pair>, y: real)
    requires forall i :: 0 <= i < |s| ==> DesignY(s[i]) > y
    ensures WithDesignY(s, y) == []
  {
    if s != [] {
      WithDesignYAbove(s[1..], y);
    }
  }

  /** Inserting keeps the elements with each y in order, the new one last among its equals. */
  lemma {:induction false} InsertByYStable(p: Pair, s: seq<Pair>, y: real)
    requires SortedByY(s)
    ensures WithDesignY(InsertByY(p, s), y) == WithDesignY(s, y) + AtY(p, y)
  {
    if s == [] {
      WithDesignYSingle(p, y);
    } else if DesignY(p) < DesignY(s[0]) {
      InsertFrontStable(p, s, y);
    } else {
      SortedTail(s);
      InsertByYStable(p, s[1..], y);
      InsertLaterStable(p, s, y);
    }
  }

  /** A pair inserted at the front is below every pair with its y, of which there are none. */
  lemma InsertFrontStable(p: Pair, s: seq<Pair>, y: real)
    requires s != [] && SortedByY(s) && DesignY(p) < DesignY(s[0])
    ensures WithDesignY([p] + s, y) == WithDesignY(s, y) + AtY(p, y)
  {
    var r := [p] + s;
    assert r[0] == p && r[1..] == s;
    if DesignY(p) == y {
      WithDesignYAbove(s, y);
    }
  }

  lemma InsertLaterStable(p: Pair, s: seq<Pair>, y: real)
    requires s != []
    requires WithDesignY(InsertByY(p, s[1..]), y) == WithDesignY(s[1..], y) + AtY(p, y)
    ensures WithDesignY([s[0]] + InsertByY(p, s[1..]), y) == WithDesignY(s, y) + AtY(p, y)
  {
    var rest := InsertByY(p, s[1..]);
    var r := [s[0]] + rest;
    assert r[0] == s[0] && r[1..] == rest;
    calc {
      WithDesignY(r, y);
      AtY(s[0], y) + WithDesignY(rest, y);
      AtY(s[0], y) + (WithDesignY(s[1..], y) + AtY(p, y));
      { ConcatAssoc(AtY(s[0], y), WithDesignY(s[1..], y), AtY(p, y)); }
      (AtY(s[0], y) + WithDesignY(s[1..], y)) + AtY(p, y);
      WithDesignY(s, y) + AtY(p, y);
    }
  }

  /**
   * `SortByY` is stable: the pairs that share a design y come out in their
   * input order.
   */
  lemma {:induction false} SortByYStable(ps: seq<Pair>, y: real)
    ensures WithDesignY(SortByY(ps), y) == WithDesignY(ps, y)
  {
    if ps != [] {
      var init, last := ps[..|ps| - 1], ps[|ps| - 1];
      var sortedInit := SortByY(init);
      assert SortByY(ps) == InsertByY(last, sortedInit);
      SortByYStable(init, y);
      SortByYSorted(init);
      InsertByYStable(last, sortedInit, y);
      assert ps == init + [last];
      WithDesignYConcat(init, [last], y);
      WithDesignYSingle(last, y);
    }
  }

  lemma WithDesignYSingle(p: Pair, y: real)
    ensures WithDesignY([p], y) == AtY(p, y)
  {
    assert [p][1..] == [];
  }

  // ---------------------------------------------------------------------
  // compare_layouts
  // ---------------------------------------------------------------------

  /** A component's `name`, or the placeholder `unnamed_component_<i>`. */
  datatype ComponentName = Named(name: string) | Unnamed(index: nat)

  datatype Tests = Tests(dimensions: CheckResult, spacing: CheckResult, padding: CheckResult, style: StyleResult)

  /** An entry of `matched_components`; `figma` and `app` are its `raw_data`. */
  datatype Component = Component(
    name: ComponentName,
    layoutStatus: Status,    // overall_layout_status
    styleStatus: Status,     // overall_style_status
    tests: Tests,
    figma: Props,
    app: Props)

  datatype Summary = Summary(errorCount: int, successCount: int, warningCount: int, auditCount: int)

  /**
   * What `compare_layouts` returns.  Both error results carry a single fixed
   * message in `errors`; a `Compared` report has an empty `warnings` list.
   */
  datatype Report =
    | EmptyResult(summary: Summary)     // no pairs at all
    | MalformedResult(errorCount: int)  // a pair without design y: the summary holds only error_count
    | Compared(summary: Summary, components: seq<Component>, scale: real, figmaWidth: real, appWidth: real)

  /** Every key the checks read, along the order in which the pairs are visited. */
  predicate ChainReadable(sorted: seq<Pair>) {
    && (forall i :: 0 <= i < |sorted| ==> PaddingReadable(sorted[i].figma, sorted[i].app))
    && (forall i, j :: 0 <= i < |sorted| && 0 <= j < |sorted| && j == i + 1 ==> SpacingReadable(sorted[i], sorted[j]))
  }

  function NameOf(p: Pair, i: nat): (n: ComponentName)
    ensures n.Unnamed? <==> p.name.None?
    ensures p.name.Some? ==> n == Named(p.name.value)
    ensures p.name.None? ==> n == Unnamed(i)
  {
    if p.name.Some? then Named(p.name.value) else Unnamed(i)
  }

  /** The per-pair layout verdict. */
  function LayoutOf(dims: CheckResult, spacing: CheckResult, padding: CheckResult): (s: Status)
    ensures s == Pass || s == Fail
    ensures s == Fail <==> dims.status == Fail || spacing.status == Fail || padding.status == Fail
  {
    if dims.status == Fail || spacing.status == Fail || padding.status == Fail then Fail else Pass
  }

  /** The spacing test of the `i`-th pair in visiting order. */
  function SpacingAt(sorted: seq<Pair>, i: nat, scale: real, tolerance: real): (r: CheckResult)
    requires i < |sorted| && ChainReadable(sorted)
    ensures r.status == NotApplicable <==> i == 0
    ensures i == 0 ==> r == CheckResult(NotApplicable, FirstComponent)
    ensures i > 0 ==> r == VerticalSpacing(sorted[i - 1], sorted[i], scale, tolerance)
  {
    if i == 0 then CheckResult(NotApplicable, FirstComponent)
    else VerticalSpacing(sorted[i - 1], sorted[i], scale, tolerance)
  }

  /** The `i`-th entry of `matched_components`. */
  function ComponentAt(sorted: seq<Pair>, i: nat, scale: real, figmaWidth: real, appWidth: real, tolerance: real)
    : (c: Component)
    requires i < |sorted| && ChainReadable(sorted)
    ensures c.figma == sorted[i].figma && c.app == sorted[i].app
    ensures c.layoutStatus == Pass || c.layoutStatus == Fail
    ensures c.layoutStatus == Fail <==>
              || Dimensions(sorted[i].figma, sorted[i].app, scale, tolerance).status == Fail
              || SpacingAt(sorted, i, scale, tolerance).status == Fail
              || Paddings(sorted[i].figma, sorted[i].app, figmaWidth, appWidth, scale, tolerance).status == Fail
    ensures c.styleStatus != Fail
    ensures c.styleStatus == Audit <==> StylesOf(sorted[i].figma) != StylesOf(sorted[i].app)
    ensures c.styleStatus == c.tests.style.status
    ensures (c.tests.spacing.status == NotApplicable) <==> i == 0
  {
    var p := sorted[i];
    var dims := Dimensions(p.figma, p.app, scale, tolerance);
    var spacing := SpacingAt(sorted, i, scale, tolerance);
    var padding := Paddings(p.figma, p.app, figmaWidth, appWidth, scale, tolerance);
    var style := StyleVerdict(p.figma, p.app);
    Component(NameOf(p, i), LayoutOf(dims, spacing, padding), style.status,
              Tests(dims, spacing, padding, style), p.figma, p.app)
  }

  /** Number of components whose layout failed. */
  function LayoutFailures(cs: seq<Component>): (n: nat)
    ensures n <= |cs|
  {
    if cs == [] then 0
    else LayoutFailures(cs[..|cs| - 1]) + (if cs[|cs| - 1].layoutStatus == Fail then 1 else 0)
  }

  /** Number of components whose layout passed. */
  function LayoutPasses(cs: seq<Component>): (n: nat)
    ensures n <= |cs|
  {
    if cs == [] then 0
    else LayoutPasses(cs[..|cs| - 1]) + (if cs[|cs| - 1].layoutStatus == Pass then 1 else 0)
  }

  /** Number of components whose style asks for an audit. */
  function StyleAudits(cs: seq<Component>): (n: nat)
    ensures n <= |cs|
  {
    if cs == [] then 0
    else StyleAudits(cs[..|cs| - 1]) + (if cs[|cs| - 1].styleStatus == Audit then 1 else 0)
  }

  /** When every layout verdict is pass or fail, the passes are the total minus the failures. */
  lemma {:induction false} PassesAreTheRest(cs: seq<Component>)
    requires forall i :: 0 <= i < |cs| ==> cs[i].layoutStatus == Pass || cs[i].layoutStatus == Fail
    ensures LayoutPasses(cs) == |cs| - LayoutFailures(cs)
  {
    if cs != [] {
      PassesAreTheRest(cs[..|cs| - 1]);
    }
  }

  /** The components come out in ascending design y. */
  lemma ComponentsInDesignOrder(pairs: seq<Pair>, cs: seq<Component>, scale: real, figmaWidth: real, appWidth: real,
                                tolerance: real)
    requires AllHaveDesignY(pairs) && ChainReadable(SortByY(pairs)) && |cs| == |pairs|
    requires forall i :: 0 <= i < |cs| ==> cs[i] == ComponentAt(SortByY(pairs), i, scale, figmaWidth, appWidth, tolerance)
    ensures forall i, j :: 0 <= i < j < |cs| ==>
              Y in cs[i].figma.bounds && Y in cs[j].figma.bounds && cs[i].figma.bounds[Y] <= cs[j].figma.bounds[Y]
  {
    var sorted := SortByY(pairs);
    SortByYSorted(pairs);
    SortByYKeepsKeys(pairs);
    forall i, j | 0 <= i < j < |cs|
      ensures Y in cs[i].figma.bounds && Y in cs[j].figma.bounds && cs[i].figma.bounds[Y] <= cs[j].figma.bounds[Y]
    {
      assert cs[i].figma == sorted[i].figma && cs[j].figma == sorted[j].figma;
      assert HasDesignY(sorted[i]) && HasDesignY(sorted[j]);
      assert DesignY(sorted[i]) <= DesignY(sorted[j]);
    }
  }

  /** One iteration of the loop in `compare_layouts`: the four tests of the `i`-th pair and its entry. */
  method CheckPair(sorted: seq<Pair>, i: nat, scale: real, figmaWidth: real, appWidth: real, tolerance: real)
    returns (c: Component)
    requires i < |sorted| && ChainReadable(sorted)
    ensures c == ComponentAt(sorted, i, scale, figmaWidth, appWidth, tolerance)
  {
    var current := sorted[i];
    var name := if current.name.Some? then Named(current.name.value) else Unnamed(i);
    var dims := CheckDimensions(current.figma, current.app, scale, tolerance);
    var style := StyleVerdict(current.figma, current.app);
    var spacing;
    if i == 0 {
      spacing := CheckResult(NotApplicable, FirstComponent);
    } else {
      spacing := VerticalSpacing(sorted[i - 1], current, scale, tolerance);
    }
    var padding := CheckHorizontalPaddings(current.figma, current.app, figmaWidth, appWidth, scale, tolerance);
    var layout := Pass;
    if dims.status == Fail || spacing.status == Fail || padding.status == Fail {
      layout := Fail;
    }
    c := Component(name, layout, style.status, Tests(dims, spacing, padding, style), current.figma, current.app);
  }

  /** The loop of `compare_layouts` over the pairs in visiting order, with its two counters. */
  method CompareSorted(sorted: seq<Pair>, scale: real, figmaWidth: real, appWidth: real, tolerance: real)
    returns (components: seq<Component>, errors: nat, audits: nat)
    requires ChainReadable(sorted)
    ensures |components| == |sorted|
    ensures forall j :: 0 <= j < |sorted| ==> components[j] == ComponentAt(sorted, j, scale, figmaWidth, appWidth, tolerance)
    ensures errors == LayoutFailures(components)
    ensures audits == StyleAudits(components)
  {
    ghost var entries := Entries(sorted, scale, figmaWidth, appWidth, tolerance);
    errors, audits := 0, 0;
    components := [];
    for i := 0 to |sorted|
      invariant components == entries[..i]
      invariant errors == LayoutFailures(components)
      invariant audits == StyleAudits(components)
    {
      var c := CheckPair(sorted, i, scale, figmaWidth, appWidth, tolerance);
      if c.layoutStatus == Fail {
        errors := errors + 1;
      }
      if c.styleStatus == Audit {
        audits := audits + 1;
      }
      CountsSnoc(components, c);
      TakeSnoc(entries, i);
      components := components + [c];
    }
    assert entries[..|sorted|] == entries;
  }

  /** The entries of all pairs, in visiting order. */
  ghost function Entries(sorted: seq<Pair>, scale: real, figmaWidth: real, appWidth: real, tolerance: real)
    : (es: seq<Component>)
    requires ChainReadable(sorted)
    ensures |es| == |sorted|
  {
    seq(|sorted|, j requires 0 <= j < |sorted| => ComponentAt(sorted, j, scale, figmaWidth, appWidth, tolerance))
  }

  lemma TakeSnoc<T>(s: seq<T>, i: nat)
    requires i < |s|
    ensures s[..i + 1] == s[..i] + [s[i]]
  {
  }

  /** Appending one component adds its verdicts to both counts. */
  lemma CountsSnoc(cs: seq<Component>, c: Component)
    ensures LayoutFailures(cs + [c]) == LayoutFailures(cs) + (if c.layoutStatus == Fail then 1 else 0)
    ensures StyleAudits(cs + [c]) == StyleAudits(cs) + (if c.styleStatus == Audit then 1 else 0)
  {
    assert (cs + [c])[..|cs|] == cs;
  }

  /** `compare_layouts(matched_pairs, figma_width, app_width, tolerance)`. */
  method CompareLayouts(pairs: seq<Pair>, figmaWidth: real, appWidth: real, tolerance: real) returns (r: Report)
    requires pairs != [] ==> figmaWidth != 0.0
    requires AllHaveDesignY(pairs) ==> ChainReadable(SortByY(pairs))
    ensures pairs == [] ==> r == EmptyResult(Summary(1, 0, 0, 0))
    ensures pairs != [] && !AllHaveDesignY(pairs) ==> r == MalformedResult(1)
    ensures r.Compared? <==> pairs != [] && AllHaveDesignY(pairs)
    ensures r.Compared? ==>
              && AllHaveDesignY(pairs)
              && r.scale == appWidth / figmaWidth && r.figmaWidth == figmaWidth && r.appWidth == appWidth
              && |r.components| == |pairs|
              && (forall i :: 0 <= i < |pairs| ==>
                    r.components[i] == ComponentAt(SortByY(pairs), i, r.scale, figmaWidth, appWidth, tolerance))
    ensures r.Compared? ==>
              && (forall i, j :: 0 <= i < j < |r.components| ==>
                    Y in r.components[i].figma.bounds && Y in r.components[j].figma.bounds
                    && r.components[i].figma.bounds[Y] <= r.components[j].figma.bounds[Y])
              && multiset(SortByY(pairs)) == multiset(pairs)
    ensures r.Compared? ==>
              && r.summary.errorCount == LayoutFailures(r.components)
              && r.summary.successCount == |pairs| - LayoutFailures(r.components)
              && r.summary.successCount == LayoutPasses(r.components)
              && r.summary.auditCount == StyleAudits(r.components)
              && r.summary.warningCount == 0
  {
    if pairs == [] {
      return EmptyResult(Summary(1, 0, 0, 0));
    }
    var scale := appWidth / figmaWidth;
    if !AllHaveDesignY(pairs) {
      return MalformedResult(1);
    }
    var sorted := SortByY(pairs);
    var components, errors, audits := CompareSorted(sorted, scale, figmaWidth, appWidth, tolerance);
    PassesAreTheRest(components);
    ComponentsInDesignOrder(pairs, components, scale, figmaWidth, appWidth, tolerance);
    SortByYPermutes(pairs);
    r := Compared(Summary(errors, |sorted| - errors, 0, audits), components, scale, figmaWidth, appWidth);
  }
}
