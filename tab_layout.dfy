/** Layout of the tab headers: each tab is as wide as its measured title
    plus the horizontal padding on both sides, the tabs sit side by side
    from the strip's left edge, and the strip is as wide as all of them. */
module TabLayout {
  import opened Basics
  import opened Geometry

  /** Width of the header of a tab titled `title`: with non-negative padding
      it holds the title's text, and with positive padding it is never empty. */
  function TabWidth(padX: int, measure: string -> nat, title: string): (r: int)
    ensures padX >= 0 ==> measure(title) <= r
    ensures padX > 0 ==> r > 0
  {
    padX + measure(title) + padX
  }

  /** Sum of the header widths of `titles`. */
  function WidthSum(padX: int, measure: string -> nat, titles: seq<string>): int
  {
    if titles == [] then 0
    else TabWidth(padX, measure, titles[0]) + WidthSum(padX, measure, titles[1..])
  }

  /** Adding a tab at the right end adds its width to the sum. */
  lemma {:induction false} WidthSumSnoc(padX: int, measure: string -> nat, titles: seq<string>, title: string)
    ensures WidthSum(padX, measure, titles + [title]) ==
              WidthSum(padX, measure, titles) + TabWidth(padX, measure, title)
  {
    if titles != [] {
      assert (titles + [title])[1..] == titles[1..] + [title];
      WidthSumSnoc(padX, measure, titles[1..], title);
    } else {
      assert [title][1..] == [];
    }
  }

  /** The offset of tab `i + 1` is the offset of tab `i` plus the width of tab `i`. */
  lemma WidthSumStep(padX: int, measure: string -> nat, titles: seq<string>, i: nat)
    requires i < |titles|
    ensures WidthSum(padX, measure, titles[..i + 1]) ==
              WidthSum(padX, measure, titles[..i]) + TabWidth(padX, measure, titles[i])
  {
    assert titles[..i + 1] == titles[..i] + [titles[i]];
    WidthSumSnoc(padX, measure, titles[..i], titles[i]);
  }

  /** With non-negative padding, offsets never decrease from left to right. */
  lemma {:induction false} WidthSumMonotone(padX: int, measure: string -> nat, titles: seq<string>, a: nat, b: nat)
    requires padX >= 0
    requires a <= b <= |titles|
    ensures WidthSum(padX, measure, titles[..a]) <= WidthSum(padX, measure, titles[..b])
    decreases b - a
  {
    if a < b {
      WidthSumStep(padX, measure, titles, a);
      WidthSumMonotone(padX, measure, titles, a + 1, b);
    }
  }

  /** The rectangle of tab `i` in a strip whose top-left corner and height
      are those of `area`: it has the strip's top and height and its title's
      header width, the first tab starts at the strip's left edge, and with
      non-negative padding every tab lies within the strip's width. */
  function TabRect(area: Rect, padX: int, measure: string -> nat, titles: seq<string>, i: nat): (r: Rect)
    requires i < |titles|
    ensures r.y == area.y && r.h == area.h && r.w == TabWidth(padX, measure, titles[i])
    ensures i == 0 ==> r.x == area.x
    ensures padX >= 0 ==> area.x <= r.x && r.x + r.w <= area.x + WidthSum(padX, measure, titles)
  {
    TabWithinStrip(padX, measure, titles, i);
    Rect(area.x + WidthSum(padX, measure, titles[..i]), area.y, TabWidth(padX, measure, titles[i]), area.h)
  }

  /** With non-negative padding, the span of offsets of tab `i` lies within
      the strip's width. */
  lemma TabWithinStrip(padX: int, measure: string -> nat, titles: seq<string>, i: nat)
    requires i < |titles|
    ensures padX >= 0 ==>
              0 <= WidthSum(padX, measure, titles[..i]) &&
              WidthSum(padX, measure, titles[..i]) + TabWidth(padX, measure, titles[i]) <= WidthSum(padX, measure, titles)
  {
    if padX >= 0 {
      assert titles[..0] == [] && titles[..|titles|] == titles;
      WidthSumStep(padX, measure, titles, i);
      WidthSumMonotone(padX, measure, titles, 0, i);
      WidthSumMonotone(padX, measure, titles, i + 1, |titles|);
    }
  }

  /** All tab rectangles of the strip. All share the strip's top and
      height, each is as wide as its title's header, the first starts at the
      strip's left edge and the last one ends at the strip's left edge plus
      the sum of all widths (LayoutAdjacent shows the tabs in between abut). */
  function Layout(area: Rect, padX: int, measure: string -> nat, titles: seq<string>): (rs: seq<Rect>)
    ensures |rs| == |titles|
    ensures |rs| > 0 ==> rs[0].x == area.x
    ensures forall i :: 0 <= i < |rs| ==>
              rs[i].y == area.y && rs[i].h == area.h && rs[i].w == TabWidth(padX, measure, titles[i])
    ensures |rs| > 0 ==> rs[|rs| - 1].x + rs[|rs| - 1].w == area.x + WidthSum(padX, measure, titles)
  {
    LastTabEnd(area, padX, measure, titles);
    seq(|titles|, i requires 0 <= i < |titles| => TabRect(area, padX, measure, titles, i))
  }

  /** Each tab starts where the tab before it ends. */
  lemma LayoutAdjacent(area: Rect, padX: int, measure: string -> nat, titles: seq<string>, i: nat)
    requires 0 < i < |titles|
    ensures Layout(area, padX, measure, titles)[i].x ==
              Layout(area, padX, measure, titles)[i - 1].x + Layout(area, padX, measure, titles)[i - 1].w
  {
    WidthSumStep(padX, measure, titles, i - 1);
  }

  /** The last tab ends where the sum of the widths says the strip ends. */
  lemma LastTabEnd(area: Rect, padX: int, measure: string -> nat, titles: seq<string>)
    ensures |titles| > 0 ==>
              TabRect(area, padX, measure, titles, |titles| - 1).x + TabRect(area, padX, measure, titles, |titles| - 1).w ==
              area.x + WidthSum(padX, measure, titles)
  {
    if |titles| > 0 {
      WidthSumStep(padX, measure, titles, |titles| - 1);
      assert titles[..|titles|] == titles;
    }
  }

  /** The layout depends on the strip's corner and height, not on its width. */
  lemma LayoutIgnoresWidth(area: Rect, area': Rect, padX: int, measure: string -> nat, titles: seq<string>)
    requires area'.x == area.x && area'.y == area.y && area'.h == area.h
    ensures forall i :: 0 <= i < |titles| ==> Layout(area', padX, measure, titles)[i] == TabRect(area, padX, measure, titles, i)
  {
  }

  /** The first of `rects` that contains `p` under the test `within`. */
  function FirstHit(rects: seq<Rect>, p: Point, within: (Rect, Point) -> bool): (r: Option<nat>)
    ensures r.Some? ==> r.value < |rects| && within(rects[r.value], p)
    ensures r.Some? ==> forall j :: 0 <= j < r.value ==> !within(rects[j], p)
    ensures r.None? ==> forall j :: 0 <= j < |rects| ==> !within(rects[j], p)
    decreases |rects|
  {
    if rects == [] then None
    else if within(rects[0], p) then Some(0)
    else
      match FirstHit(rects[1..], p, within)
      case None => None
      case Some(k) => Some(k + 1)
  }

  /** The tab whose span of offsets holds `d`, for `d` inside the strip. */
  lemma {:induction false} ColumnTab(padX: int, measure: string -> nat, titles: seq<string>, d: int)
    returns (i: nat)
    requires padX >= 0
    requires 0 <= d < WidthSum(padX, measure, titles)
    ensures i < |titles|
    ensures WidthSum(padX, measure, titles[..i]) <= d < WidthSum(padX, measure, titles[..i + 1])
  {
    var n := |titles|;
    var init := titles[..n - 1];
    WidthSumStep(padX, measure, titles, n - 1);
    assert titles[..n] == titles;
    if d >= WidthSum(padX, measure, init) {
      i := n - 1;
    } else {
      i := ColumnTab(padX, measure, init, d);
      assert init[..i] == titles[..i];
      assert init[..i + 1] == titles[..i + 1];
    }
  }

  /** Hit-testing a freshly laid out strip with half-open rectangles: a point
      inside the strip falls in exactly one tab, the one whose span of
      offsets holds the point's distance from the strip's left edge, and the
      first-match scan finds that tab. */
  lemma HitFindsColumnTab(area: Rect, padX: int, measure: string -> nat, titles: seq<string>, p: Point)
    requires padX >= 0
    requires HalfOpenContains(area.(w := WidthSum(padX, measure, titles)), p)
    ensures var rs := Layout(area, padX, measure, titles);
            var hit := FirstHit(rs, p, HalfOpenContains);
            && hit.Some?
            && WidthSum(padX, measure, titles[..hit.value]) <= p.x - area.x
            && p.x - area.x < WidthSum(padX, measure, titles[..hit.value + 1])
            && forall j :: 0 <= j < |rs| && j != hit.value ==> !HalfOpenContains(rs[j], p)
  {
    var rs := Layout(area, padX, measure, titles);
    var i := ColumnTab(padX, measure, titles, p.x - area.x);
    WidthSumStep(padX, measure, titles, i);
    assert HalfOpenContains(rs[i], p);
    forall j | 0 <= j < |rs| && j != i
      ensures !HalfOpenContains(rs[j], p)
    {
      WidthSumStep(padX, measure, titles, j);
      if j < i {
        WidthSumMonotone(padX, measure, titles, j + 1, i);
      } else {
        WidthSumMonotone(padX, measure, titles, i + 1, j);
      }
    }
  }

  /** Three tabs "A", "BB", "CCC" measured 6, 10 and
      14 pixels wide with padding 4: widths 14, 18, 22 at offsets 0, 14, 32. */
  lemma ThreeTabExample(measure: string -> nat)
    requires measure("A") == 6 && measure("BB") == 10 && measure("CCC") == 14
    ensures Layout(Rect(0, 0, 0, 0), 4, measure, ["A", "BB", "CCC"]) ==
              [Rect(0, 0, 14, 0), Rect(14, 0, 18, 0), Rect(32, 0, 22, 0)]
    ensures WidthSum(4, measure, ["A", "BB", "CCC"]) == 54
  {
    var t := ["A", "BB", "CCC"];
    assert t[..0] == [] && t[..1] == ["A"] && t[..2] == ["A", "BB"] && t[..3] == t;
    assert ["A", "BB"][..1] == ["A"];
    assert ["A"][..0] == [];
  }
}
