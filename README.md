# Tab strip widget of the FLARE engine, modelled in Dafny

This project models `WidgetTabControl`, the tab-strip widget of the FLARE
action role-playing game engine's menu system. The widget keeps four
parallel tables: tab titles, tab rectangles, labels in the active colour
and labels in the inactive colour. It also keeps the index of the open
tab and the rectangle of the whole strip. It lays the tabs out side by
side, picks a tab from a pointer click, steps to the next or previous tab,
and draws each tab's background by tiling one fixed-size image.

Modules, one per concern of `src/WidgetTabControl.cpp`:

- `Basics`: an `Option` type, `Min`/`Max`, and `U32_MAX`, the largest C++ `unsigned`.
- `Geometry`: `Rect`, `Point`, and one half-open point-in-rectangle test.
- `TabIndex`: the clamp of `setActiveTab` and the `getNext` / `getPrev` steps as functions.
- `TabTitles`: how `setTabTitle` grows the tables, and what a series of calls leaves.
- `TabLayout`: tab widths, cumulative offsets, the layout of `updateHeader`, and the first-match hit test.
- `TabTiling`: the background tiling loop of `renderTab`. It yields the image clip and screen position of each piece instead of drawing.
- `WidgetTab`: the class `WidgetTabControl`. Its fields are the source's fields, and its methods update them in place.

Things outside the widget enter as values:

- Text measurement (`font->calc_width`) is a constructor parameter `measure: string -> nat`.
- The tab padding (`eset->widgets.tab_padding`) is a constructor parameter `tabPadding`.
- The background image size is a constructor parameter `tabImage`. It is `None` when the image did not load.
- The point-in-rectangle test (`isWithinRect`) is a parameter of `Logic`.
- The main-button flag is a parameter of `Logic`.
- The focus flag is a parameter of `Render`.

Two behaviours of the code are easy to misread:

- For fewer than 0xFFFFFFFF tabs, `getNext` and `getPrev` do not wrap around. They stop at the last tab and at tab 0. On the last tab, `++active_tab` equals the tab count, and `setActiveTab` maps that to the last tab. On tab 0, `--active_tab` wraps the `unsigned` to 0xFFFFFFFF, which is then beyond the count, and `setActiveTab` maps it to 0. `TabIndex.ThreeStepsDoNotWrap` shows three `getNext` steps over three tabs ending on tab 2. With exactly 0xFFFFFFFF tabs the wrapped value equals the count, so `getPrev` from tab 0 does select the last tab (`TabIndex.PrevAtFullCountSelectsLast`).
- The background pieces are not free of overlap. The loop stops once its cursor reaches `w - p` (tab width minus padding). But it trims a piece only where it would pass `w`. So the last middle piece can run up to `p` columns under the right edge, which is drawn afterwards. `TabTiling.TilesDrawnWidth` bounds the drawn width between `w` and `w + p`. `TabTiling.OverlapExample` exhibits 23 columns drawn for a 21-column tab. Every column of the tab is still covered, and nothing is drawn outside it (`TabTiling.TilingCoversTab`).

## Model

| member | source | states |
|---|---|---|
| `TabIndex.ClampIndex` | src/WidgetTabControl.cpp:79-86 | the stored index is a valid tab whenever tabs exist (0 when none do); an in-range request is kept as is; an out-of-range request yields 0 or the last tab |
| `TabIndex.ClampIndexOutOfRange` | src/WidgetTabControl.cpp:80-83 | a request equal to the count selects the last tab; a larger request selects tab 0 |
| `TabIndex.ClampIndexIdempotent` | src/WidgetTabControl.cpp:79-86 | clamping an already clamped index changes nothing |
| `TabIndex.NextSaturates` | src/WidgetTabControl.cpp:285-288 | getNext leaves min(old + 1, count - 1): one step right, staying on the last tab |
| `TabIndex.PrevSaturates` | src/WidgetTabControl.cpp:290-293 | for fewer than 0xFFFFFFFF tabs, getPrev leaves max(old - 1, 0): one step left, staying on tab 0 |
| `TabIndex.PrevAtFullCountSelectsLast` | src/WidgetTabControl.cpp:290-293 | with exactly 0xFFFFFFFF tabs, the unsigned wrap makes getPrev from tab 0 select the last tab |
| `TabIndex.NextIndex` | src/WidgetTabControl.cpp:285-288 | getNext leaves a valid tab whenever tabs exist; below the last tab it moves one right; on the last tab it stays |
| `TabIndex.PrevIndex` | src/WidgetTabControl.cpp:290-293 | getPrev leaves a valid tab whenever tabs exist; right of tab 0 it moves one left; on tab 0 with fewer than 0xFFFFFFFF tabs it stays |
| `TabIndex.NextThenPrev` | src/WidgetTabControl.cpp:285-293 | a step right then a step left returns to the start, except from the last tab |
| `TabIndex.ThreeStepsDoNotWrap` | src/WidgetTabControl.cpp:285-288 | with three tabs, three getNext steps from tab 0 end on tab 2 |
| `TabTitles.Grow` | src/WidgetTabControl.cpp:57-62 | growing a table to n entries keeps the old entries and fills the new ones with the default; a table already that long is kept |
| `TabTitles.SetTitle` | src/WidgetTabControl.cpp:56-65 | the table has max(old length, index + 1) titles; slot index holds the new title; every other old slot keeps its title; created slots are empty |
| `TabTitles.ApplyTitlesContents` | src/WidgetTabControl.cpp:56-65 | after any series of calls, the length is max(old length, largest index + 1); each slot holds the title of the last call naming it; other slots keep their old title or are empty |
| `TabTitles.NoCallBeyondBound` | src/WidgetTabControl.cpp:57-58 | no call names a slot at or past the largest index + 1 |
| `TabTitles.ApplyTitlesFromEmpty` | src/WidgetTabControl.cpp:56-65 | from an empty table, the table ends one past the largest index named, and unnamed slots hold empty titles |
| `TabLayout.TabWidth` | src/WidgetTabControl.cpp:119 | with non-negative padding, a tab header is at least as wide as its title's text; with positive padding it is never empty |
| `TabLayout.WidthSumSnoc` | src/WidgetTabControl.cpp:119-120 | appending a tab adds its width to the strip width |
| `TabLayout.WidthSumStep` | src/WidgetTabControl.cpp:116-120 | the offset of tab i + 1 is the offset of tab i plus the width of tab i |
| `TabLayout.WidthSumMonotone` | src/WidgetTabControl.cpp:116-120 | with non-negative padding, tab offsets never decrease left to right |
| `TabLayout.TabRect` | src/WidgetTabControl.cpp:113-119 | tab i has the strip's top and height and its title's header width; tab 0 starts at the strip's left edge; with non-negative padding, every tab lies within the strip's width |
| `TabLayout.TabWithinStrip` | src/WidgetTabControl.cpp:116-120 | with non-negative padding, the offset span of every tab lies between 0 and the strip width |
| `TabLayout.Layout` | src/WidgetTabControl.cpp:109-120 | one rectangle per title; each has the strip's top and height and the width 2·padding + text width; the first starts at the strip's left edge; the last ends at that edge plus the sum of widths |
| `TabLayout.LayoutAdjacent` | src/WidgetTabControl.cpp:116-117 | each tab starts where the previous tab ends |
| `TabLayout.LastTabEnd` | src/WidgetTabControl.cpp:110-120 | the right end of the last tab is the strip's left edge plus the accumulated strip width |
| `TabLayout.LayoutIgnoresWidth` | src/WidgetTabControl.cpp:110-117 | the layout depends on the strip's corner and height, not on the width it had before |
| `TabLayout.FirstHit` | src/WidgetTabControl.cpp:172-177 | the result is the lowest index whose rectangle contains the point, or none when no rectangle does |
| `TabLayout.ColumnTab` | src/WidgetTabControl.cpp:112-120 | every distance inside the strip lies in the offset span of some tab |
| `TabLayout.HitFindsColumnTab` | src/WidgetTabControl.cpp:167-179 | with non-negative padding, half-open rectangles and a fresh layout, a point inside the strip lies in exactly one tab; the scan picks that tab, the one whose offset span holds the point |
| `TabLayout.ThreeTabExample` | src/WidgetTabControl.cpp:109-120 | titles measured 6, 10 and 14 with padding 4 give widths 14, 18, 22 at offsets 0, 14, 32; the strip is 54 wide |
| `TabTiling.Piece` | src/WidgetTabControl.cpp:225-246 | a piece is placed at the cursor on the tab's row and cut from the given image column; it keeps its width while it fits in the tab; a trimmed piece ends exactly at the tab's right end |
| `TabTiling.Middles` | src/WidgetTabControl.cpp:224-246 | no middle pieces once the cursor reaches the right edge's start; otherwise the first is cut from column p at the cursor |
| `TabTiling.Tiles` | src/WidgetTabControl.cpp:215-246 | no pieces for a tab no wider than the padding; otherwise the first is cut from column 0 at the tab's top-left corner, and the second from column p, where the first ends when the padding is non-negative |
| `TabTiling.RightEdge` | src/WidgetTabControl.cpp:261-263 | the right edge is p columns wide: the last p columns of the image, drawn at the last p columns of the tab on the tab's row |
| `TabTiling.TileStep` | src/WidgetTabControl.cpp:224-246 | one turn of the loop at a cursor left of the right edge's start takes a positive piece, and the pieces so far, that piece and the rest make up all the pieces |
| `TabTiling.TileBackground` | src/WidgetTabControl.cpp:214-263 | the loop yields exactly the pieces of `Tiles` (first piece, then middle pieces, each trimmed at the tab's right end), then the right edge |
| `TabTiling.MiddlesShape` | src/WidgetTabControl.cpp:234-246 | the middle pieces are cut from image column p; each is positive and at most the middle width; they are contiguous from the cursor; the last ends between the right edge's start and the tab's end |
| `TabTiling.MiddlesWidths` | src/WidgetTabControl.cpp:236-246 | every middle piece but the last has exactly the middle width min(w - 2p, g - 2p); a piece trimmed below it ends exactly at the tab's right end |
| `TabTiling.TilesShape` | src/WidgetTabControl.cpp:224-246 | the first piece is cut from column 0 at the tab's left end, with width min(w - p, g - p); later pieces are cut from column p; every piece stays left of the image's right edge; pieces are contiguous; every piece strictly between the first and the last has exactly the middle width; the last ends between w - p and w |
| `TabTiling.ContiguousSpan` | src/WidgetTabControl.cpp:224-246 | contiguous pieces of positive width cover exactly the columns from the first start to the last end |
| `TabTiling.TilingCoversTab` | src/WidgetTabControl.cpp:215-263 | for a tab at least as wide as the padding, the pieces and the right edge cover a column if and only if it lies in the tab |
| `TabTiling.DrawnWidthSpan` | src/WidgetTabControl.cpp:243-246 | the widths of contiguous pieces add up to the distance from the first start to the last end |
| `TabTiling.TilesDrawnWidth` | src/WidgetTabControl.cpp:243-263 | the drawn widths, right edge included, total between w and w + p |
| `TabTiling.OverlapExample` | src/WidgetTabControl.cpp:243-263 | with w = 21, p = 4 and g = 11, five pieces end 19 columns in, two columns under the right edge; 23 columns are drawn |
| `TabTiling.TrimExample` | src/WidgetTabControl.cpp:243-246 | with w = 21, p = 2 and g = 12, the third piece is trimmed from 8 to 3 columns and ends at the tab's right end |
| `WidgetTab.LabelFor` | src/WidgetTabControl.cpp:122-136 | a label shows the tab's title in the given colour, inset by the horizontal padding, and anchored on the tab's middle row (half the height, rounded down) shifted by the vertical padding |
| `WidgetTab.LayOutHeaders` | src/WidgetTabControl.cpp:110-137 | the strip width becomes the sum of the tab widths; tab i gets the layout rectangle; both labels of tab i are anchored at (x + pad.x, y + h/2 + pad.y) with title i, one in the normal and one in the disabled colour |
| `WidgetTab.WidgetTabControl.constructor` | src/WidgetTabControl.cpp:28-40 | a new widget has no tabs, tab 0 open and an empty strip rectangle |
| `WidgetTab.WidgetTabControl.SetTabTitle` | src/WidgetTabControl.cpp:56-65 | titles become `SetTitle(old, index, title)`; the other three tables grow to the same length with default entries; the open tab and the strip are unchanged |
| `WidgetTab.WidgetTabControl.GetActiveTab` | src/WidgetTabControl.cpp:72-74 | returns the open tab, a valid index whenever tabs exist |
| `WidgetTab.WidgetTabControl.SetActiveTab` | src/WidgetTabControl.cpp:79-86 | the open tab becomes `ClampIndex(tab, count)`; a valid widget stays valid |
| `WidgetTab.WidgetTabControl.GetTabHeight` | src/WidgetTabControl.cpp:295-297 | the strip height is the image height when the image loaded, 0 otherwise |
| `WidgetTab.WidgetTabControl.SetMainArea` | src/WidgetTabControl.cpp:94-102 | the strip is placed at (x, y) with the tab height; its width is the sum of tab widths whatever it was before; tabs and labels are laid out |
| `WidgetTab.WidgetTabControl.UpdateHeader` | src/WidgetTabControl.cpp:109-138 | the strip keeps its corner and height and gets the sum of widths; tabs become `Layout`; labels are placed; titles and the open tab are unchanged |
| `WidgetTab.WidgetTabControl.Logic` | src/WidgetTabControl.cpp:167-179 | with the button pressed inside the strip, the open tab becomes the first tab containing the pointer; otherwise, or when no tab contains it, the open tab is unchanged; nothing else changes |
| `WidgetTab.WidgetTabControl.RenderTab` | src/WidgetTabControl.cpp:208-283 | the open tab uses the active image and label, every other tab the inactive ones; the background is `Tiles` of the tab with the right edge |
| `WidgetTab.WidgetTabControl.Render` | src/WidgetTabControl.cpp:186-203 | every tab is drawn as `RenderTab` draws it, in order; with focus, a selection rectangle spans the open tab's corners, and without focus there is none |
| `WidgetTab.WidgetTabControl.GetNext` | src/WidgetTabControl.cpp:285-288 | the open tab becomes `NextIndex(old, count)`; returns true |
| `WidgetTab.WidgetTabControl.GetPrev` | src/WidgetTabControl.cpp:290-293 | the open tab becomes `PrevIndex(old, count)`, with the unsigned decrement written out; returns true |

## Left out

- `src/GameStateTitle.cpp` is not part of this model. It is title-screen plumbing: configuration parsing, buttons, sound and game-state changes.
- `loadGraphics` and the destructor are left out (image file loading and sprite ownership). The image size is a constructor parameter.
- The zero-argument `logic()` is left out. It only forwards the global mouse position to `logic(x, y)`, which is modelled.
- Actual drawing is left out: `render_device->render`, `setClip`, `setDest`, `drawRectangle` and the rendering of labels. The model yields the clips, positions and corners these calls receive.
- Colours are left out: the two label colours are the tags `WidgetNormal` and `WidgetDisabled`, and the selection-rectangle colour is not modelled.
- Screen coordinates and widths are unbounded integers. Overflow of the source's 32-bit `int` arithmetic is not modelled.
- The open tab is an `unsigned` in the source, and `getActiveTab` returns it as `int`. The model returns it unchanged. It does not model the conversion of indices at or above 2^31.
- `SetTabTitle` requires `index < 0xFFFFFFFF`. At the `unsigned` maximum, `index + 1` wraps to 0 and the write goes out of bounds.
- `SetActiveTab` requires a tab to exist or the request to be non-zero. `setActiveTab(0)` with no tabs would store `0 - 1` in unsigned arithmetic. `getNext` and `getPrev` never make that request.
- `RenderTab` and `Render` require the image to be loaded, because the source reads the active surface's width without a null check.
- `RenderTab` and `Render` require the tiling loop to terminate. For a tab no wider than the padding the loop does not run, and nothing is required. For a tab wider than the padding, the image must be wider than the padding, and wider than twice the padding when the tab is wider than the image. For other sizes the source loops forever.
- `Render` with focus requires at least one tab, because the source reads `tabs[active_tab]` without a check.
- `WidgetTab.WidgetTabControl.UpdateHeader`: the header loop runs in `LayOutHeaders` on the values of the four fields, which are written back when it ends. The intermediate states of the fields during the loop are not modelled.
- Label heights use `h / 2` under the class invariant that the strip height, an image height, is never negative. There, C++ truncating division and Dafny's division agree.
- The tiling lemmas `MiddlesShape`, `MiddlesWidths`, `TilesShape`, `TilingCoversTab` and `TilesDrawnWidth`, and the layout lemmas `WidthSumMonotone`, `TabWithinStrip`, `ColumnTab` and `HitFindsColumnTab`, assume non-negative padding. So do the within-the-strip clause of `TabRect`, the containment clauses of `TabWidth`, and the second-piece clause of `Tiles`. A tab narrower than the padding has its right edge drawn left of the tab; no lemma covers that case.
- The hit-test lemma `HitFindsColumnTab` is stated for half-open rectangles. `isWithinRect` is not part of this model, and `Logic` takes the test as a parameter.
