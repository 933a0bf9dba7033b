/**
 Where the blocks of the dashboard go for a terminal of `w` columns and `h` rows, for
 every size.
 */
module Layout {
  import opened Prelude

  const BANNER_W: nat := 68
  const BANNER_H: nat := 6
  const TITLE_W: nat := 10

  datatype Region = Region(x: nat, y: nat, w: nat, h: nat)

  datatype Screen = Screen(
    banner: Option<Region>, summaryY: Option<nat>, menu: Region, graph: Option<Region>, footerY: Option<nat>)

  /** Plot height and menu height of the stacked layout. */
  function SplitVertical(content: nat): (nat, nat) {
    if content < 7 then (0, content)
    else
      var raw := if content >= 26 then Min(content / 2, 20)
                 else if content >= 16 then content / 3
                 else content / 4;
      var graph := Clamp(raw, 3, SatSub(content, 4));
      (graph, SatSub(content, graph + 3))
  }

  // ---------------------------------------------------------------------
  // The layout, stage by stage
  // ---------------------------------------------------------------------

  function Banner(w: nat, h: nat): Option<Region> {
    if w >= 72 && h >= 28 then Some(Region((w - BANNER_W) / 2, 1, BANNER_W, BANNER_H))
    else if w >= 16 && h >= 4 then Some(Region((w - TITLE_W) / 2, 1, TITLE_W, 1))
    else None
  }

  /** First row below the banner and its blank row. */
  function BelowBanner(w: nat, h: nat): nat {
    var b := Banner(w, h);
    if b.Some? then b.value.y + b.value.h + 1 else 0
  }

  function HasSummary(w: nat, h: nat): bool {
    w >= 24 && h >= BelowBanner(w, h) + 3
  }

  /** First content row. */
  function ContentY(w: nat, h: nat): nat {
    BelowBanner(w, h) + (if HasSummary(w, h) then 2 else 0)
  }

  /** First row below the content. */
  function Bottom(h: nat): nat {
    if h >= 3 then h - 2 else h
  }

  function ContentH(w: nat, h: nat): nat {
    SatSub(Bottom(h), ContentY(w, h))
  }

  predicate IsWide(w: nat, h: nat) {
    w >= 110 && ContentH(w, h) >= 5
  }

  function WideMenuW(w: nat): nat {
    Clamp(w * 45 / 100, 44, 72)
  }

  function Graph(w: nat, h: nat): Option<Region> {
    var y, content := ContentY(w, h), ContentH(w, h);
    if IsWide(w, h) then
      var gx := 2 + WideMenuW(w) + 2;
      var gw := SatSub(w, gx + 2);
      var gh := SatSub(content, 2);
      if gw >= 34 && gh >= 3 then Some(Region(gx, y, gw, gh)) else None
    else
      var plot := SplitVertical(content).0;
      if plot >= 3 && w >= 40 then Some(Region(2, y, SatSub(w, 4), plot)) else None
  }

  function Menu(w: nat, h: nat): Region {
    var y, content := ContentY(w, h), ContentH(w, h);
    if IsWide(w, h) then
      Region(2, y, if Graph(w, h).Some? then WideMenuW(w) else SatSub(w, 4), content)
    else
      var (plot, menu) := SplitVertical(content);
      Region(2, if Graph(w, h).Some? then y + plot + 3 else y, SatSub(w, 4), menu)
  }

  function LayoutOf(w: nat, h: nat): Screen {
    Screen(Banner(w, h), if HasSummary(w, h) then Some(BelowBanner(w, h)) else None,
           Menu(w, h), Graph(w, h), if h >= 3 then Some(h - 1) else None)
  }

  /** The layout as it is computed, threading the next free row. */
  method ComputeLayout(w: nat, h: nat) returns (l: Screen)
    ensures l == LayoutOf(w, h)
  {
    var y := 0;
    var banner: Option<Region> := None;
    if w >= 72 && h >= 28 {
      y := 1;
      banner := Some(Region((w - BANNER_W) / 2, 1, BANNER_W, BANNER_H));
      y := y + BANNER_H + 1;
    } else if w >= 16 && h >= 4 {
      y := 1;
      banner := Some(Region((w - TITLE_W) / 2, 1, TITLE_W, 1));
      y := y + 2;
    }
    var summaryY: Option<nat> := None;
    if w >= 24 && h >= y + 3 {
      summaryY := Some(y);
      y := y + 2;
    }
    var footerY: Option<nat> := if h >= 3 then Some(h - 1) else None;
    var bottom := if footerY.Some? then SatSub(footerY.value, 1) else h;
    var content := SatSub(bottom, y);
    var menu: Region;
    var graph: Option<Region> := None;
    if w >= 110 && content >= 5 {
      var menuW := Clamp(w * 45 / 100, 44, 72);
      var gx := 2 + menuW + 2;
      var gw := SatSub(w, gx + 2);
      var gh := SatSub(content, 2);
      var full := SatSub(w, 4);
      if gw >= 34 && gh >= 3 {
        graph := Some(Region(gx, y, gw, gh));
      }
      menu := Region(2, y, if graph.Some? then menuW else full, content);
    } else {
      var (plotH, menuH) := SplitVertical(content);
      if plotH >= 3 && w >= 40 {
        graph := Some(Region(2, y, SatSub(w, 4), plotH));
      }
      menu := Region(2, if graph.Some? then y + plotH + 3 else y, SatSub(w, 4), menuH);
    }
    l := Screen(banner, summaryY, menu, graph, footerY);
  }

  // ---------------------------------------------------------------------
  // Blocks on the screen
  // ---------------------------------------------------------------------

  predicate Inside(r: Region, w: nat, h: nat) {
    r.x + r.w <= w && r.y + r.h <= h
  }

  /** No cell belongs to both. */
  predicate Disjoint(a: Region, b: Region) {
    a.w == 0 || a.h == 0 || b.w == 0 || b.h == 0
    || a.x + a.w <= b.x || b.x + b.w <= a.x || a.y + a.h <= b.y || b.y + b.h <= a.y
  }

  predicate InRegion(r: Region, x: nat, y: nat) {
    r.x <= x < r.x + r.w && r.y <= y < r.y + r.h
  }

  /** `Disjoint` is exactly the absence of a shared cell. */
  lemma DisjointMeansNoSharedCell(a: Region, b: Region)
    ensures Disjoint(a, b) <==> forall x: nat, y: nat :: !(InRegion(a, x, y) && InRegion(b, x, y))
  {
    if !Disjoint(a, b) {
      assert InRegion(a, Max(a.x, b.x), Max(a.y, b.y)) && InRegion(b, Max(a.x, b.x), Max(a.y, b.y));
    }
  }

  /** The plot with its caption row above and its axis row below. */
  function PlotBlock(g: Region): Region {
    Region(g.x, g.y, g.w, g.h + 2)
  }

  function Row(y: nat, w: nat): Region {
    Region(0, y, w, 1)
  }

  datatype Part = Header | Summary | Plot | Entries | Footer

  /** The block of a part: header, summary row, plot block, menu, footer row. */
  function Block(l: Screen, w: nat, part: Part): Option<Region> {
    match part
    case Header => l.banner
    case Summary => if l.summaryY.Some? then Some(Row(l.summaryY.value, w)) else None
    case Plot => if l.graph.Some? then Some(PlotBlock(l.graph.value)) else None
    case Entries => Some(l.menu)
    case Footer => if l.footerY.Some? then Some(Row(l.footerY.value, w)) else None
  }

  /** No block of the screen shares a cell with `r`. */
  predicate ClearOf(l: Screen, w: nat, r: Region) {
    forall part :: Block(l, w, part).Some? ==> Disjoint(Block(l, w, part).value, r)
  }

  // ---------------------------------------------------------------------
  // Properties
  // ---------------------------------------------------------------------

  /** The split tiles its rows exactly, and leaves room for both parts. */
  lemma SplitTiles(content: nat)
    ensures var (graph, menu) := SplitVertical(content);
            if content < 7 then graph == 0 && menu == content
            else 3 <= graph <= 20 && menu >= 1 && graph + 3 + menu == content
  {
  }

  /** The header ends above the summary, and the summary above the content. */
  lemma HeaderRows(w: nat, h: nat)
    ensures Banner(w, h).Some? ==> var b := Banner(w, h).value;
              Inside(b, w, h) && b.y + b.h + 1 == BelowBanner(w, h) && b.y + b.h < h
    ensures HasSummary(w, h) ==> BelowBanner(w, h) + 2 == ContentY(w, h) && BelowBanner(w, h) + 2 < h
    ensures ContentH(w, h) > 0 ==> ContentY(w, h) + ContentH(w, h) == Bottom(h)
    ensures ContentY(w, h) <= Max(h - 1, 0)
  {
  }

  /** Menu and plot live between the content row and the bottom, side by side or stacked. */
  lemma ContentRows(w: nat, h: nat)
    requires w >= 2
    ensures var m := Menu(w, h);
            && m.x + m.w <= w && ContentY(w, h) <= m.y
            && m.y + m.h <= ContentY(w, h) + ContentH(w, h)
    ensures Graph(w, h).Some? ==>
              var g := PlotBlock(Graph(w, h).value);
              && g.x + g.w <= w && g.y == ContentY(w, h)
              && g.y + g.h <= ContentY(w, h) + ContentH(w, h)
              && Disjoint(g, Menu(w, h))
  {
    SplitTiles(ContentH(w, h));
  }

  /**
   For every terminal at least two columns wide, and any height: all blocks lie on the
   screen and no two of them share a cell.
   */
  lemma LayoutIsSafe(w: nat, h: nat, part: Part, other: Part)
    requires w >= 2 && Block(LayoutOf(w, h), w, part).Some?
    ensures Inside(Block(LayoutOf(w, h), w, part).value, w, h)
    ensures part != other && Block(LayoutOf(w, h), w, other).Some? ==>
              Disjoint(Block(LayoutOf(w, h), w, part).value, Block(LayoutOf(w, h), w, other).value)
  {
    HeaderRows(w, h);
    ContentRows(w, h);
  }

  /** Two columns are needed: on a narrower screen the menu starts off the right edge. */
  lemma MenuFitsExactly(w: nat, h: nat)
    ensures Inside(Menu(w, h), w, h) <==> w >= 2
  {
    HeaderRows(w, h);
    if w >= 2 {
      ContentRows(w, h);
    }
  }

  /** The wide layout always has room for its plot; the stacked one exactly from 40 columns and 7 rows. */
  lemma PlotAppearsExactly(w: nat, h: nat)
    ensures Graph(w, h).Some? <==> IsWide(w, h) || (ContentH(w, h) >= 7 && w >= 40)
    ensures Graph(w, h).Some? ==> Graph(w, h).value.w >= 34 && Graph(w, h).value.h >= 3
  {
    SplitTiles(ContentH(w, h));
  }

  /** Content rows that menu and plot block take: side by side the menu's, stacked the sum. */
  function RowsUsed(w: nat, h: nat): nat {
    Menu(w, h).h + (if !IsWide(w, h) && Graph(w, h).Some? then Graph(w, h).value.h + 3 else 0)
  }

  /**
   The layout uses every content row exactly when it is wide, has 40 columns, or has under 7
   content rows. On a narrower and taller screen the plot is dropped, yet the menu keeps the
   height it would have had under it, and at least six rows stay empty.
   */
  lemma LayoutTilesExactly(w: nat, h: nat)
    ensures RowsUsed(w, h) == ContentH(w, h) <==> IsWide(w, h) || w >= 40 || ContentH(w, h) < 7
    ensures RowsUsed(w, h) == ContentH(w, h) || RowsUsed(w, h) + 6 <= ContentH(w, h)
  {
    SplitTiles(ContentH(w, h));
  }

  /** Rows of the two scroll indicators, above and below the menu. */
  function MoreAboveRow(w: nat, h: nat): nat {
    SatSub(Menu(w, h).y, 1)
  }

  function MoreBelowRow(w: nat, h: nat): nat {
    Menu(w, h).y + Menu(w, h).h
  }

  /**
   Below a drawn menu the indicator has its own row on the screen, or no row at all on a
   screen of fewer than three rows. The indicator above has its own row exactly when the
   menu does not start on the very first one; there it covers the first menu entry.
   */
  lemma IndicatorsHaveTheirOwnRows(w: nat, h: nat)
    requires w >= 4 && Menu(w, h).h >= 1
    ensures ClearOf(LayoutOf(w, h), w, Row(MoreBelowRow(w, h), w))
    ensures MoreBelowRow(w, h) < h <==> h >= 3
    ensures w >= 5 ==>
              (Disjoint(Menu(w, h), Row(MoreAboveRow(w, h), w)) <==> Menu(w, h).y > 0)
    ensures Menu(w, h).y > 0 ==> ClearOf(LayoutOf(w, h), w, Row(MoreAboveRow(w, h), w))
  {
    HeaderRows(w, h);
    ContentRows(w, h);
    SplitTiles(ContentH(w, h));
  }

  /** The scrollbar's column right of the menu is on the screen and crosses no other block. */
  lemma ScrollbarHasItsOwnColumn(w: nat, h: nat)
    requires w >= 4
    ensures var m := Menu(w, h);
            var bar := Region(m.x + m.w, m.y, 1, m.h);
            Inside(bar, w, h) && ClearOf(LayoutOf(w, h), w, bar)
  {
    HeaderRows(w, h);
    ContentRows(w, h);
    SplitTiles(ContentH(w, h));
  }

  // ---------------------------------------------------------------------
  // Which blocks appear, and where
  // ---------------------------------------------------------------------

  /**
   The logo from 72 by 28 on, else the title from 16 by 4 on, else nothing; in the second row
   and centred to within one column.
   */
  lemma HeaderExactly(w: nat, h: nat)
    ensures var b := LayoutOf(w, h).banner;
            if w >= 72 && h >= 28 then b.Some? && b.value.w == 68 && b.value.h == 6
            else if w >= 16 && h >= 4 then b.Some? && b.value.w == 10 && b.value.h == 1
            else b == None
    ensures var b := LayoutOf(w, h).banner;
            b.Some? ==> b.value.y == 1 && w - 1 <= 2 * b.value.x + b.value.w <= w
  {
  }

  /**
   The summary, where there are 24 columns and three rows left below the header, stands after
   the header's blank row; the content starts after the summary's own; the footer takes the
   last row from three rows on, with a blank row above it.
   */
  lemma RowsExactly(w: nat, h: nat)
    ensures var l := LayoutOf(w, h);
            var top := if l.banner.Some? then l.banner.value.y + l.banner.value.h + 1 else 0;
            var start := if l.summaryY.Some? then top + 2 else top;
            var stop := if h >= 3 then h - 2 else h;
            && (l.summaryY == if w >= 24 && h >= top + 3 then Some(top) else None)
            && (l.footerY == if h >= 3 then Some(h - 1) else None)
            && ContentY(w, h) == start
            && ContentH(w, h) == if stop >= start then stop - start else 0
  {
  }

  /**
   From 110 columns and five content rows on the plot stands beside the menu: menu 45% of the
   width but 44 to 72 columns, two columns between them and on both sides, all content rows
   but the plot's caption and axis. Otherwise the plot, where it appears, stands above the
   menu, and both leave two columns on each side.
   */
  lemma PlacesExactly(w: nat, h: nat)
    ensures var l := LayoutOf(w, h);
            var y, rows := ContentY(w, h), ContentH(w, h);
            if w >= 110 && rows >= 5 then
              && l.graph.Some? && l.menu == Region(2, y, l.menu.w, rows)
              && l.menu.w == (if w * 45 / 100 < 44 then 44 else if w * 45 / 100 > 72 then 72 else w * 45 / 100)
              && l.graph.value == Region(l.menu.w + 4, y, w - l.menu.w - 6, rows - 2)
            else
              && l.menu.x == 2 && l.menu.w == (if w >= 4 then w - 4 else 0)
              && l.menu.y == (if l.graph.Some? then y + l.graph.value.h + 3 else y)
              && l.menu.h == (if rows < 7 then rows else rows - PlotRows(rows) - 3)
              && (l.graph == if rows >= 7 && w >= 40 then Some(Region(2, y, w - 4, PlotRows(rows))) else None)
  {
    SplitTiles(ContentH(w, h));
  }

  /** A quarter of the rows, a third from 16, half from 26, between 3 and 20. */
  function PlotRows(rows: nat): nat
    requires rows >= 7
  {
    if rows < 12 then 3
    else if rows < 16 then rows / 4
    else if rows < 26 then rows / 3
    else if rows < 40 then rows / 2
    else 20
  }
}
