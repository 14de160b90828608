/** The tab-strip widget: a row of tab headers, one of them active, laid
    out side by side from the strip's top-left corner. Text measurement, the
    tab padding and the size of the tab background image come from outside
    the widget and are fixed when it is built. */
module WidgetTab {
  import opened Basics
  import opened Geometry
  import opened TabIndex
  import opened TabTitles
  import opened TabLayout
  import opened TabTiling

  /** The two label colours (the font's "widget_normal" and "widget_disabled"). */
  datatype LabelColor = WidgetNormal | WidgetDisabled

  /** A tab label: left-justified, vertically centred text anchored at
      (x, y); Blank is a label slot that has not been laid out yet. */
  datatype Label = Blank | Placed(x: int, y: int, text: string, color: LabelColor)

  /** Size of the loaded tab background image. */
  datatype ImageSize = ImageSize(width: int, height: nat)

  /** Which background image (and label set) a tab is drawn with. */
  datatype Surface = ActiveSurface | InactiveSurface

  /** Everything renderTab hands to the renderer for one tab. */
  datatype TabDrawing = TabDrawing(surface: Surface, tiles: seq<Blit>, edge: Blit, caption: Label)

  /** The corners of the selection rectangle drawn around the active tab. */
  datatype Corners = Corners(topLeft: Point, bottomRight: Point)

  /** The label of a tab laid out in `tab`: the tab's title in `color`,
      inset by the horizontal padding, and vertically at the tab's middle row
      (half the height, rounded down) shifted by the vertical padding. */
  function LabelFor(tab: Rect, padding: Point, title: string, color: LabelColor): (r: Label)
    requires tab.h >= 0
    ensures r.Placed? && r.text == title && r.color == color
    ensures r.x - tab.x == padding.x
    ensures var row := r.y - tab.y - padding.y; 0 <= 2 * row <= tab.h < 2 * row + 2
  {
    Placed(tab.x + padding.x, tab.y + tab.h / 2 + padding.y, title, color)
  }

  /** The header loop of updateHeader over the strip rectangle `area` and the
      tab and label tables: lays the tabs out left to right, accumulating the
      strip width, and places both labels of every tab. */
  method LayOutHeaders(area: Rect, pad: Point, measure: string -> nat, titles: seq<string>,
                       tabs: seq<Rect>, normal: seq<Label>, disabled: seq<Label>)
    returns (area': Rect, tabs': seq<Rect>, normal': seq<Label>, disabled': seq<Label>)
    requires area.h >= 0
    requires |tabs| == |titles| && |normal| == |titles| && |disabled| == |titles|
    ensures area' == area.(w := WidthSum(pad.x, measure, titles))
    ensures |tabs'| == |titles| && |normal'| == |titles| && |disabled'| == |titles|
    ensures forall i :: 0 <= i < |titles| ==>
              && tabs'[i] == TabRect(area, pad.x, measure, titles, i)
              && normal'[i] == LabelFor(tabs'[i], pad, titles[i], WidgetNormal)
              && disabled'[i] == LabelFor(tabs'[i], pad, titles[i], WidgetDisabled)
  {
    area', tabs', normal', disabled' := area.(w := 0), tabs, normal, disabled;
    var i := 0;
    while i < |tabs'|
      invariant 0 <= i <= |tabs'| == |titles| == |normal'| == |disabled'|
      invariant area' == area.(w := WidthSum(pad.x, measure, titles[..i]))
      invariant forall j :: 0 <= j < i ==>
                  && tabs'[j] == TabRect(area, pad.x, measure, titles, j)
                  && normal'[j] == LabelFor(tabs'[j], pad, titles[j], WidgetNormal)
                  && disabled'[j] == LabelFor(tabs'[j], pad, titles[j], WidgetDisabled)
    {
      WidthSumStep(pad.x, measure, titles, i);
      if i > 0 {
        WidthSumStep(pad.x, measure, titles, i - 1);
      }
      var x := if i == 0 then area'.x else tabs'[i - 1].x + tabs'[i - 1].w;
      var w := pad.x + measure(titles[i]) + pad.x;
      var tab := Rect(x, area'.y, w, area'.h);
      assert tab == TabRect(area, pad.x, measure, titles, i);
      tabs' := tabs'[i := tab];
      area' := area'.(w := area'.w + w);
      normal' := normal'[i := LabelFor(tab, pad, titles[i], WidgetNormal)];
      disabled' := disabled'[i := LabelFor(tab, pad, titles[i], WidgetDisabled)];
      i := i + 1;
    }
    assert titles[..|titles|] == titles;
  }

  class WidgetTabControl {
    /** Horizontal and vertical padding around a tab title. */
    const tabPadding: Point
    /** Width of a string in the widget font. */
    const measure: string -> nat
    /** The active tab background image, if it was loaded. */
    const tabImage: Option<ImageSize>

    var titles: seq<string>
    var tabs: seq<Rect>
    var activeLabels: seq<Label>
    var inactiveLabels: seq<Label>
    var activeTab: nat
    var tabsArea: Rect

    /** The four tables are parallel and indexable by an `unsigned`; the
        active tab is a tab, or 0 while there are none; the strip height is
        an image height. */
    ghost predicate Valid()
      reads this
    {
      && |tabs| == |titles|
      && |activeLabels| == |titles|
      && |inactiveLabels| == |titles|
      && |titles| <= U32_MAX
      && (activeTab == 0 || activeTab < |titles|)
      && tabsArea.h >= 0
    }

    constructor (tabPadding: Point, measure: string -> nat, tabImage: Option<ImageSize>)
      ensures Valid()
      ensures this.tabPadding == tabPadding && this.measure == measure && this.tabImage == tabImage
      ensures titles == [] && tabs == [] && activeLabels == [] && inactiveLabels == []
      ensures activeTab == 0 && tabsArea == EmptyRect
    {
      this.tabPadding := tabPadding;
      this.measure := measure;
      this.tabImage := tabImage;
      titles, tabs, activeLabels, inactiveLabels := [], [], [], [];
      activeTab := 0;
      tabsArea := EmptyRect;
    }

    /** Sets the title of tab `index`, first adding tabs up to it if needed.
        The layout is not recomputed. */
    method SetTabTitle(index: nat, title: string)
      requires Valid()
      requires index < U32_MAX
      modifies this
      ensures Valid()
      ensures titles == SetTitle(old(titles), index, title)
      ensures tabs == Grow(old(tabs), index + 1, EmptyRect)
      ensures activeLabels == Grow(old(activeLabels), index + 1, Blank)
      ensures inactiveLabels == Grow(old(inactiveLabels), index + 1, Blank)
      ensures activeTab == old(activeTab) && tabsArea == old(tabsArea)
    {
      if index + 1 > |titles| {
        var extra := index + 1 - |titles|;
        titles := titles + seq(extra, _ => "");
        tabs := tabs + seq(extra, _ => EmptyRect);
        activeLabels := activeLabels + seq(extra, _ => Blank);
        inactiveLabels := inactiveLabels + seq(extra, _ => Blank);
      }
      titles := titles[index := title];
    }

    /** The index of the open tab. */
    function GetActiveTab(): (r: int)
      reads this
      requires Valid()
      ensures r == activeTab
      ensures |tabs| > 0 ==> 0 <= r < |tabs|
      ensures |tabs| == 0 ==> r == 0
    {
      activeTab
    }

    /** Opens tab `tab`, clamped by the rule of ClampIndex. */
    method SetActiveTab(tab: nat)
      requires tab <= U32_MAX
      requires |tabs| > 0 || tab > 0
      modifies this`activeTab
      ensures old(Valid()) ==> Valid()
      ensures activeTab == ClampIndex(tab, |tabs|)
    {
      if tab > |tabs| {
        activeTab := 0;
      } else if tab == |tabs| {
        activeTab := |tabs| - 1;
      } else {
        activeTab := tab;
      }
    }

    /** Height of the tab strip: the height of the tab image, 0 without one. */
    function GetTabHeight(): (h: nat)
      ensures tabImage.Some? ==> h == tabImage.value.height
      ensures tabImage.None? ==> h == 0
    {
      if tabImage.Some? then tabImage.value.height else 0
    }

    /** Places the strip's top-left corner at (x, y), sets its height to the
        tab height and lays out the tabs. */
    method SetMainArea(x: int, y: int)
      requires Valid()
      modifies this
      ensures Valid()
      ensures tabsArea == Rect(x, y, WidthSum(tabPadding.x, measure, titles), GetTabHeight())
      ensures tabs == Layout(tabsArea, tabPadding.x, measure, titles)
      ensures forall i :: 0 <= i < |tabs| ==>
                && activeLabels[i] == LabelFor(tabs[i], tabPadding, titles[i], WidgetNormal)
                && inactiveLabels[i] == LabelFor(tabs[i], tabPadding, titles[i], WidgetDisabled)
      ensures titles == old(titles) && activeTab == old(activeTab)
    {
      tabsArea := Rect(x, y, 0, GetTabHeight());
      UpdateHeader();
    }

    /** Lays out the tabs left to right from the strip's top-left corner,
        sets the strip's width to the sum of the tab widths and places both
        labels of every tab. */
    method UpdateHeader()
      requires Valid()
      modifies this
      ensures Valid()
      ensures tabsArea == old(tabsArea).(w := WidthSum(tabPadding.x, measure, titles))
      ensures tabs == Layout(tabsArea, tabPadding.x, measure, titles)
      ensures forall i :: 0 <= i < |tabs| ==>
                && activeLabels[i] == LabelFor(tabs[i], tabPadding, titles[i], WidgetNormal)
                && inactiveLabels[i] == LabelFor(tabs[i], tabPadding, titles[i], WidgetDisabled)
      ensures titles == old(titles) && activeTab == old(activeTab)
    {
      tabsArea, tabs, activeLabels, inactiveLabels :=
        LayOutHeaders(tabsArea, tabPadding, measure, titles, tabs, activeLabels, inactiveLabels);
      LayoutIgnoresWidth(old(tabsArea), tabsArea, tabPadding.x, measure, titles);
    }

    /** One frame of pointer handling at (x, y): while the main button is
        pressed inside the strip, the first tab containing the pointer under
        `isWithinRect` becomes active; otherwise nothing changes. */
    method Logic(x: int, y: int, mainPressed: bool, isWithinRect: (Rect, Point) -> bool)
      requires Valid()
      modifies this`activeTab
      ensures Valid()
      ensures var hit := FirstHit(tabs, Point(x, y), isWithinRect);
              activeTab == if isWithinRect(tabsArea, Point(x, y)) && mainPressed && hit.Some?
                           then hit.value else old(activeTab)
    {
      var mouse := Point(x, y);
      if isWithinRect(tabsArea, mouse) && mainPressed {
        var i := 0;
        while i < |tabs|
          invariant 0 <= i <= |tabs|
          invariant forall j :: 0 <= j < i ==> !isWithinRect(tabs[j], mouse)
          invariant activeTab == old(activeTab)
        {
          if isWithinRect(tabs[i], mouse) {
            activeTab := i;
            return;
          }
          i := i + 1;
        }
      }
    }

    /** The tab is drawn with the image and label of its state, its
        background tiled from the image, and its right edge. */
    ghost predicate DrawnAs(number: nat, d: TabDrawing)
      reads this
      requires Valid() && number < |tabs| && tabImage.Some?
      requires TilingTerminates(tabs[number].w, tabPadding.x, tabImage.value.width)
    {
      var active := number == activeTab;
      && d.surface == (if active then ActiveSurface else InactiveSurface)
      && d.tiles == Tiles(tabs[number], tabPadding.x, tabImage.value.width)
      && d.edge == RightEdge(tabs[number], tabPadding.x, tabImage.value.width)
      && d.caption == (if active then activeLabels[number] else inactiveLabels[number])
    }

    /** What is drawn for tab `number`. */
    method RenderTab(number: nat) returns (d: TabDrawing)
      requires Valid() && number < |tabs| && tabImage.Some?
      requires TilingTerminates(tabs[number].w, tabPadding.x, tabImage.value.width)
      ensures DrawnAs(number, d)
    {
      var tiles, edge := TileBackground(tabs[number], tabPadding.x, tabImage.value.width);
      if number == activeTab {
        d := TabDrawing(ActiveSurface, tiles, edge, activeLabels[number]);
      } else {
        d := TabDrawing(InactiveSurface, tiles, edge, inactiveLabels[number]);
      }
    }

    /** What is drawn for the whole strip: every tab in order and, while the
        widget has focus, the selection rectangle around the active tab. */
    method Render(inFocus: bool) returns (drawings: seq<TabDrawing>, selection: Option<Corners>)
      requires Valid() && tabImage.Some?
      requires forall i :: 0 <= i < |tabs| ==> TilingTerminates(tabs[i].w, tabPadding.x, tabImage.value.width)
      requires inFocus ==> |tabs| > 0
      ensures |drawings| == |tabs|
      ensures forall i :: 0 <= i < |tabs| ==> DrawnAs(i, drawings[i])
      ensures selection.Some? <==> inFocus
      ensures selection.Some? ==>
                var t := tabs[activeTab];
                selection.value == Corners(Point(t.x, t.y), Point(t.x + t.w, t.y + t.h))
    {
      drawings := [];
      var i := 0;
      while i < |tabs|
        invariant 0 <= i <= |tabs|
        invariant |drawings| == i
        invariant forall j :: 0 <= j < i ==> DrawnAs(j, drawings[j])
      {
        var d := RenderTab(i);
        drawings := drawings + [d];
        i := i + 1;
      }
      if inFocus {
        var topLeft := Point(tabs[activeTab].x, tabs[activeTab].y);
        var bottomRight := Point(topLeft.x + tabs[activeTab].w, topLeft.y + tabs[activeTab].h);
        selection := Some(Corners(topLeft, bottomRight));
      } else {
        selection := None;
      }
    }

    /** Opens the next tab; stays on the last one. */
    method GetNext() returns (handled: bool)
      requires Valid()
      modifies this`activeTab
      ensures Valid() && handled
      ensures activeTab == NextIndex(old(activeTab), |tabs|)
    {
      activeTab := activeTab + 1;
      SetActiveTab(activeTab);
      handled := true;
    }

    /** Opens the previous tab; stays on tab 0. */
    method GetPrev() returns (handled: bool)
      requires Valid()
      modifies this`activeTab
      ensures Valid() && handled
      ensures activeTab == PrevIndex(old(activeTab), |tabs|)
    {
      activeTab := if activeTab == 0 then U32_MAX else activeTab - 1;
      SetActiveTab(activeTab);
      handled := true;
    }
  }
}
