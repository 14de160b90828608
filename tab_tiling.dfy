/** The background of one tab header, stretched to the tab's width from a
    single fixed-size image: a left part (left edge plus middle), the middle
    part repeated as often as needed, and a fixed right edge `p` pixels wide,
    where `p` is the horizontal tab padding and `g` the image width. Instead
    of drawing, the model produces the source clip and the destination
    position of every piece. */
module TabTiling {
  import opened Basics
  import opened Geometry

  /** One piece drawn: the clip taken from the image and where it goes. */
  datatype Blit = Blit(src: Rect, dest: Point)

  /** The screen column one past the right end of a piece. */
  function End(b: Blit): int {
    b.dest.x + b.src.w
  }

  /** The piece covers screen column `column`. */
  predicate Covers(b: Blit, column: int) {
    b.dest.x <= column < End(b)
  }

  /** The tiling loop ends: every piece it takes has a positive width. With
      a tab wider than the padding, the image must be wider than the padding,
      and wider than twice the padding if the tab is wider than the image. */
  predicate TilingTerminates(w: int, p: int, g: int) {
    w - p <= 0 || (g - p > 0 && (w <= g || g - 2 * p > 0))
  }

  /** Width of the first piece before trimming: as much of the left edge and
      middle as fits without reaching the right edge of tab or image. */
  function FirstWidth(w: int, p: int, g: int): int {
    Min(w - p, g - p)
  }

  /** Width of every later piece before trimming: the middle of the image. */
  function MiddleWidth(w: int, p: int, g: int): int {
    Min(w - 2 * p, g - 2 * p)
  }

  /** The piece drawn with the cursor at `c`, taken from image column `srcX`
      with width `width`, trimmed when it would pass the tab's right end. */
  function Piece(tab: Rect, c: int, srcX: int, width: int): (r: Blit)
    ensures r.dest == Point(tab.x + c, tab.y) && r.src.x == srcX && r.src.y == 0 && r.src.h == tab.h
    ensures c + width <= tab.w ==> r.src.w == width
    ensures c + width > tab.w ==> End(r) == tab.x + tab.w
  {
    Blit(Rect(srcX, 0, if c + width > tab.w then tab.w - c else width, tab.h), Point(tab.x + c, tab.y))
  }

  /** The middle pieces drawn from cursor `c` on: none once the cursor has
      reached the right edge's start; otherwise the first is cut from image
      column `p` and placed at the cursor on the tab's row. MiddlesShape
      states the shape of the whole run. */
  function Middles(tab: Rect, p: int, g: int, c: int): (r: seq<Blit>)
    requires c >= tab.w - p || MiddleWidth(tab.w, p, g) > 0
    ensures r == [] <==> c >= tab.w - p
    ensures r != [] ==> r[0].dest == Point(tab.x + c, tab.y) && r[0].src.x == p
    decreases tab.w - p - c
  {
    if c >= tab.w - p then []
    else [Piece(tab, c, p, MiddleWidth(tab.w, p, g))] + Middles(tab, p, g, c + MiddleWidth(tab.w, p, g))
  }

  /** All pieces drawn before the right edge, left to right: none for a tab
      no wider than the padding; otherwise the first is cut from image
      column 0 at the tab's top-left corner and, when it does not reach the
      right edge's start, the second is cut from column `p` where the first
      ends. TilesShape states the shape of the whole run. */
  function Tiles(tab: Rect, p: int, g: int): (r: seq<Blit>)
    requires TilingTerminates(tab.w, p, g)
    ensures r == [] <==> tab.w - p <= 0
    ensures r != [] ==> r[0].dest == Point(tab.x, tab.y) && r[0].src.x == 0
    ensures |r| > 1 ==> r[1].src.x == p
    ensures |r| > 1 && p >= 0 ==> r[1].dest.x == End(r[0])
  {
    if tab.w - p <= 0 then []
    else [Piece(tab, 0, 0, FirstWidth(tab.w, p, g))] + Middles(tab, p, g, FirstWidth(tab.w, p, g))
  }

  /** The right edge: the last `p` columns of the image at the last `p`
      columns of the tab. */
  function RightEdge(tab: Rect, p: int, g: int): (r: Blit)
    ensures End(r) == tab.x + tab.w && r.src.x + r.src.w == g
    ensures r.src.w == p
    ensures r.dest.y == tab.y && r.src.y == 0 && r.src.h == tab.h
  {
    Blit(Rect(g - p, 0, p, tab.h), Point(tab.x + tab.w - p, tab.y))
  }

  /** One turn of the background loop with the cursor at `c`, left of the
      right edge's start: the piece taken there (the first piece at cursor 0,
      a middle piece after it) is positive, and the pieces drawn so far plus
      it plus the middle pieces from where it would end untrimmed are all
      the pieces. */
  lemma TileStep(tab: Rect, p: int, g: int, drawn: seq<Blit>, c: int)
    requires TilingTerminates(tab.w, p, g)
    requires 0 <= c < tab.w - p
    requires c == 0 ==> drawn == []
    requires c > 0 ==> MiddleWidth(tab.w, p, g) > 0 && drawn + Middles(tab, p, g, c) == Tiles(tab, p, g)
    ensures var width := if c == 0 then FirstWidth(tab.w, p, g) else MiddleWidth(tab.w, p, g);
            var srcX := if c == 0 then 0 else p;
            var trimmed := if c + width > tab.w then tab.w - c else width;
            && width > 0
            && (c + width >= tab.w - p || MiddleWidth(tab.w, p, g) > 0)
            && (drawn + [Blit(Rect(srcX, 0, trimmed, tab.h), Point(tab.x + c, tab.y))]) + Middles(tab, p, g, c + width)
               == Tiles(tab, p, g)
  {
    if c > 0 {
      var m := MiddleWidth(tab.w, p, g);
      var b := Piece(tab, c, p, m);
      var rest := Middles(tab, p, g, c + m);
      assert Middles(tab, p, g, c) == [b] + rest;
      assert (drawn + [b]) + rest == drawn + ([b] + rest);
    }
  }

  /** The background loop of renderTab: draws pieces while the cursor is
      left of the right edge, then the right edge. */
  method TileBackground(tab: Rect, p: int, g: int) returns (tiles: seq<Blit>, edge: Blit)
    requires TilingTerminates(tab.w, p, g)
    ensures tiles == Tiles(tab, p, g)
    ensures edge == RightEdge(tab, p, g)
  {
    var widthToRender := tab.w - p;
    var cursor := 0;
    tiles := [];
    while cursor < widthToRender
      invariant cursor >= 0
      invariant cursor == 0 ==> tiles == []
      invariant cursor > 0 ==> cursor >= widthToRender || MiddleWidth(tab.w, p, g) > 0
      invariant cursor > 0 ==> tiles + Middles(tab, p, g, cursor) == Tiles(tab, p, g)
      decreases widthToRender - cursor
    {
      var dest := Point(tab.x + cursor, tab.y);
      var srcX, srcW;
      if cursor == 0 {
        srcX := 0;
        srcW := tab.w - p;
        if srcW > g - p {
          srcW := g - p;
        }
      } else {
        srcX := p;
        srcW := tab.w - p * 2;
        if srcW > g - p * 2 {
          srcW := g - p * 2;
        }
      }
      TileStep(tab, p, g, tiles, cursor);
      cursor := cursor + srcW;
      if cursor > tab.w {
        srcW := tab.w - (cursor - srcW);
      }
      tiles := tiles + [Blit(Rect(srcX, 0, srcW, tab.h), dest)];
    }
    edge := Blit(Rect(g - p, 0, p, tab.h), Point(tab.x + tab.w - p, tab.y));
  }

  /** Each piece starts where the previous one ends. */
  predicate Contiguous(t: seq<Blit>) {
    forall k :: 0 < k < |t| ==> t[k].dest.x == End(t[k - 1])
  }

  /** Sum of the widths of the pieces. */
  function DrawnWidth(t: seq<Blit>): int {
    if t == [] then 0 else t[0].src.w + DrawnWidth(t[1..])
  }

  /** The middle pieces from cursor `c`: all cut from image column `p`, each
      at most the middle width and positive, the first at the cursor, each
      next one where the previous one ends, and the last one ending between
      the right edge's start and the tab's right end. */
  lemma {:induction false} MiddlesShape(tab: Rect, p: int, g: int, c: int)
    requires p >= 0
    requires c >= tab.w - p || MiddleWidth(tab.w, p, g) > 0
    ensures var ms := Middles(tab, p, g, c);
            && (ms == [] <==> c >= tab.w - p)
            && (ms != [] ==> ms[0].dest.x == tab.x + c)
            && (ms != [] ==> tab.x + tab.w - p <= End(ms[|ms| - 1]) <= tab.x + tab.w)
            && Contiguous(ms)
            && (forall k :: 0 <= k < |ms| ==>
                  ms[k].src.x == p && ms[k].src.y == 0 && ms[k].src.h == tab.h && ms[k].dest.y == tab.y)
            && (forall k :: 0 <= k < |ms| ==> 0 < ms[k].src.w <= MiddleWidth(tab.w, p, g))
    decreases tab.w - p - c
  {
    if c < tab.w - p {
      var m := MiddleWidth(tab.w, p, g);
      var ms := Middles(tab, p, g, c);
      var rest := Middles(tab, p, g, c + m);
      MiddlesShape(tab, p, g, c + m);
      assert ms == [Piece(tab, c, p, m)] + rest;
      assert rest != [] ==> rest[0].dest.x == End(ms[0]);
      assert forall k :: 0 < k < |ms| ==> ms[k] == rest[k - 1];
    }
  }

  /** Every middle piece but the last has exactly the middle width, and a
      piece trimmed below the middle width ends exactly at the tab's right
      end. */
  lemma {:induction false} MiddlesWidths(tab: Rect, p: int, g: int, c: int)
    requires p >= 0
    requires c >= tab.w - p || MiddleWidth(tab.w, p, g) > 0
    ensures forall k :: 0 <= k < |Middles(tab, p, g, c)| - 1 ==>
              Middles(tab, p, g, c)[k].src.w == MiddleWidth(tab.w, p, g)
    ensures forall k :: 0 <= k < |Middles(tab, p, g, c)| && Middles(tab, p, g, c)[k].src.w < MiddleWidth(tab.w, p, g) ==>
              End(Middles(tab, p, g, c)[k]) == tab.x + tab.w
    decreases tab.w - p - c
  {
    if c < tab.w - p {
      var m := MiddleWidth(tab.w, p, g);
      var ms := Middles(tab, p, g, c);
      var rest := Middles(tab, p, g, c + m);
      MiddlesWidths(tab, p, g, c + m);
      assert ms == [Piece(tab, c, p, m)] + rest;
      forall k | 0 <= k < |ms| - 1
        ensures ms[k].src.w == m
      {
        if k > 0 {
          assert ms[k] == rest[k - 1];
        }
      }
      forall k | 0 <= k < |ms| && ms[k].src.w < m
        ensures End(ms[k]) == tab.x + tab.w
      {
        if k > 0 {
          assert ms[k] == rest[k - 1];
        }
      }
    }
  }

  /** The pieces before the right edge of a tab wider than the padding: the
      first is cut from image column 0 at the tab's left end, untrimmed; the
      others are cut from image column `p`; every piece is positive and stays
      left of the image's right edge; each starts where the previous one
      ends; every piece strictly between the first and the last has exactly
      the middle width; the last ends between the right edge's start and the
      tab's end. */
  lemma TilesShape(tab: Rect, p: int, g: int)
    requires 0 <= p < tab.w
    requires TilingTerminates(tab.w, p, g)
    ensures var t := Tiles(tab, p, g);
            && t != []
            && t[0] == Blit(Rect(0, 0, FirstWidth(tab.w, p, g), tab.h), Point(tab.x, tab.y))
            && (forall k :: 0 < k < |t| ==> t[k].src.x == p)
            && (forall k :: 0 <= k < |t| ==> t[k].src.y == 0 && t[k].src.h == tab.h && t[k].dest.y == tab.y)
            && (forall k :: 0 <= k < |t| ==> 0 < t[k].src.w && 0 <= t[k].src.x && t[k].src.x + t[k].src.w <= g - p)
            && Contiguous(t)
            && (forall k :: 0 < k < |t| - 1 ==> t[k].src.w == MiddleWidth(tab.w, p, g))
            && tab.x + tab.w - p <= End(t[|t| - 1]) <= tab.x + tab.w
  {
    var a := FirstWidth(tab.w, p, g);
    var t := Tiles(tab, p, g);
    var ms := Middles(tab, p, g, a);
    MiddlesShape(tab, p, g, a);
    MiddlesWidths(tab, p, g, a);
    assert t == [t[0]] + ms;
    assert forall k :: 0 < k < |t| ==> t[k] == ms[k - 1];
    assert ms != [] ==> MiddleWidth(tab.w, p, g) <= g - 2 * p;
  }

  /** A non-empty run of contiguous pieces of positive width covers exactly
      the columns from its first piece's start to its last piece's end. */
  lemma {:induction false} ContiguousSpan(t: seq<Blit>, column: int)
    requires t != [] && Contiguous(t)
    requires forall k :: 0 <= k < |t| ==> t[k].src.w > 0
    ensures (exists k :: 0 <= k < |t| && Covers(t[k], column)) <==>
              t[0].dest.x <= column < End(t[|t| - 1])
    decreases |t|
  {
    if |t| > 1 {
      var rest := t[1..];
      assert Contiguous(rest) by {
        forall k | 0 < k < |rest| ensures rest[k].dest.x == End(rest[k - 1]) {
          assert rest[k] == t[k + 1] && rest[k - 1] == t[k];
        }
      }
      ContiguousSpan(rest, column);
      assert Covers(rest[0], rest[0].dest.x);
      ContiguousSpan(rest, rest[0].dest.x);
      if exists k :: 0 <= k < |t| && Covers(t[k], column) {
        var k :| 0 <= k < |t| && Covers(t[k], column);
        if k > 0 {
          assert Covers(rest[k - 1], column);
        }
      }
      if t[0].dest.x <= column < End(t[|t| - 1]) && !Covers(t[0], column) {
        var k' :| 0 <= k' < |rest| && Covers(rest[k'], column);
        assert Covers(t[k' + 1], column);
      }
    } else {
      if exists k :: 0 <= k < |t| && Covers(t[k], column) {
        var k :| 0 <= k < |t| && Covers(t[k], column);
        assert k == 0;
      }
      if t[0].dest.x <= column < End(t[0]) {
        assert Covers(t[0], column);
      }
    }
  }

  /** The pieces and the right edge together cover exactly the tab's columns,
      for any tab at least as wide as the padding: nothing is left uncovered
      and nothing is drawn outside the tab. */
  lemma TilingCoversTab(tab: Rect, p: int, g: int, column: int)
    requires 0 <= p <= tab.w
    requires TilingTerminates(tab.w, p, g)
    ensures ((exists k :: 0 <= k < |Tiles(tab, p, g)| && Covers(Tiles(tab, p, g)[k], column))
               || Covers(RightEdge(tab, p, g), column))
            <==> tab.x <= column < tab.x + tab.w
  {
    if p < tab.w {
      TilesShape(tab, p, g);
      ContiguousSpan(Tiles(tab, p, g), column);
    }
  }

  /** A contiguous run's widths add up to the distance from its start to its end. */
  lemma {:induction false} DrawnWidthSpan(t: seq<Blit>)
    requires t != [] && Contiguous(t)
    ensures DrawnWidth(t) == End(t[|t| - 1]) - t[0].dest.x
    decreases |t|
  {
    if |t| > 1 {
      var rest := t[1..];
      assert Contiguous(rest) by {
        forall k | 0 < k < |rest| ensures rest[k].dest.x == End(rest[k - 1]) {
          assert rest[k] == t[k + 1] && rest[k - 1] == t[k];
        }
      }
      DrawnWidthSpan(rest);
    }
  }

  /** The widths drawn, the right edge included, add up to at least the tab
      width and at most the tab width plus the padding: the last middle piece
      is trimmed against the tab's right end, not against the right edge's
      start, so it may lie under the right edge by up to `p` columns. */
  lemma TilesDrawnWidth(tab: Rect, p: int, g: int)
    requires 0 <= p < tab.w
    requires TilingTerminates(tab.w, p, g)
    ensures tab.w <= DrawnWidth(Tiles(tab, p, g)) + p <= tab.w + p
  {
    TilesShape(tab, p, g);
    DrawnWidthSpan(Tiles(tab, p, g));
  }

  /** A tab 21 pixels wide, padding 4, image 11 pixels wide: pieces of widths
      7, 3, 3, 3, 3 end 19 columns right of the tab's start, two columns into
      the right edge, so 23 columns are drawn for a 21-column tab. */
  lemma OverlapExample(tab: Rect, p: int, g: int)
    requires tab.w == 21 && p == 4 && g == 11
    ensures var t := Tiles(tab, p, g);
            && |t| == 5
            && End(t[4]) == tab.x + 19 == RightEdge(tab, p, g).dest.x + 2
            && DrawnWidth(t) + p == 23
  {
    var m0 := Middles(tab, p, g, 19);
    var m1 := Middles(tab, p, g, 16);
    var m2 := Middles(tab, p, g, 13);
    var m3 := Middles(tab, p, g, 10);
    var m4 := Middles(tab, p, g, 7);
    assert m0 == [];
    assert m1 == [Piece(tab, 16, p, 3)] + m0;
    assert m2 == [Piece(tab, 13, p, 3)] + m1;
    assert m3 == [Piece(tab, 10, p, 3)] + m2;
    assert m4 == [Piece(tab, 7, p, 3)] + m3;
    var t := Tiles(tab, p, g);
    assert t == [Piece(tab, 0, 0, 7)] + m4;
    TilesShape(tab, p, g);
    DrawnWidthSpan(t);
  }

  /** A tab 21 pixels wide, padding 2, image 12 pixels wide: the third piece
      would reach 26 columns right of the tab's start and is trimmed to 3
      columns, ending exactly at the tab's right end. */
  lemma TrimExample(tab: Rect, p: int, g: int)
    requires tab.w == 21 && p == 2 && g == 12
    ensures Tiles(tab, p, g) ==
              [ Blit(Rect(0, 0, 10, tab.h), Point(tab.x, tab.y))
              , Blit(Rect(2, 0, 8, tab.h), Point(tab.x + 10, tab.y))
              , Blit(Rect(2, 0, 3, tab.h), Point(tab.x + 18, tab.y)) ]
  {
    var m0 := Middles(tab, p, g, 26);
    var m1 := Middles(tab, p, g, 18);
    var m2 := Middles(tab, p, g, 10);
    assert m0 == [];
    assert m1 == [Piece(tab, 18, p, 8)] + m0;
    assert m2 == [Piece(tab, 10, p, 8)] + m1;
  }
}
