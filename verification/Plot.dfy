/**
 The power plot: the watt scale and the bars, drawn cell by cell into the screen buffer.
 Samples are exact reals; a cell keeps how many of its eight dot rows are filled.
 */
module Plot {
  import opened Prelude
  import opened Layout

  // ---------------------------------------------------------------------
  // Scale
  // ---------------------------------------------------------------------

  const STEPS: seq<real> := [5.0, 10.0, 15.0, 20.0, 25.0, 30.0, 40.0, 50.0, 60.0, 80.0,
                             100.0, 120.0, 150.0, 200.0, 300.0, 500.0]

  /** First step from `k` on that reaches `target`, or the last one. */
  function StepFrom(k: nat, target: real): (s: real)
    requires k < 16
    ensures s in STEPS && STEPS[k] <= s
    ensures s >= target || s == 500.0
    ensures forall j :: k <= j < 16 && STEPS[j] < s ==> STEPS[j] < target
    decreases 16 - k
  {
    if STEPS[k] >= target || k == 15 then STEPS[k] else StepFrom(k + 1, target)
  }

  function GraphScale(peak: real): real {
    if peak <= 0.0 then 15.0 else StepFrom(0, peak * 1.2)
  }

  /** Largest sample, never below zero. */
  function Peak(data: seq<real>): (p: real)
    ensures p >= 0.0 && forall k :: 0 <= k < |data| ==> data[k] <= p
    ensures p == 0.0 || p in data
  {
    if data == [] then 0.0
    else
      var p := Peak(data[..|data| - 1]);
      if data[|data| - 1] > p then data[|data| - 1] else p
  }

  /**
   The scale is the smallest step with a fifth of headroom over a positive peak. It has
   that headroom exactly up to 416 2/3 W, and reaches the peak exactly up to 500 W.
   */
  lemma ScaleFitsExactly(peak: real)
    ensures GraphScale(peak) in STEPS && (peak <= 0.0 ==> GraphScale(peak) == 15.0)
    ensures peak > 0.0 ==> (GraphScale(peak) >= peak * 1.2 <==> peak * 1.2 <= 500.0)
    ensures GraphScale(peak) >= peak <==> peak <= 500.0
    ensures peak > 0.0 ==>
              forall j :: 0 <= j < |STEPS| && STEPS[j] < GraphScale(peak) ==> STEPS[j] < peak * 1.2
  {
    assert STEPS[2] == 15.0;
    assert forall s :: s in STEPS ==> s <= 500.0;
  }

  // ---------------------------------------------------------------------
  // Which sample, how many dots
  // ---------------------------------------------------------------------

  function PlotW(width: nat): nat {
    SatSub(width, 14)
  }

  /** Sample shown in plot column `i`, if any. */
  function SampleAt(len: nat, plotW: nat, i: nat): (k: Option<nat>)
    requires i < plotW
    ensures k.Some? ==> k.value < len
  {
    if len > plotW then Some(len - plotW + i)
    else if i < plotW - len then None
    else Some(i - (plotW - len))
  }

  /** The samples that fit, newest last. */
  function Shown<T>(data: seq<T>, plotW: nat): seq<T> {
    data[|data| - Min(|data|, plotW)..]
  }

  function Ratio(val: real, max: real): (r: real)
    requires max > 0.0
    ensures 0.0 <= r <= 1.0
  {
    var q := val / max;
    if q < 0.0 then 0.0 else if q > 1.0 then 1.0 else q
  }

  /** A share of `n`, truncated. */
  function Portion(r: real, n: nat): (d: nat)
    requires 0.0 <= r <= 1.0
    ensures d <= n
  {
    PortionRange(r, n as real);
    (r * n as real).Floor
  }

  lemma PortionRange(r: real, n: real)
    requires 0.0 <= r <= 1.0 && n >= 0.0
    ensures 0.0 <= r * n <= n
  {
  }

  function TotalDots(val: real, max: real, height: nat): (d: nat)
    requires max > 0.0
    ensures d <= 8 * height
  {
    Portion(Ratio(val, max), height * 8)
  }

  /** Dots of row `r`, counted from the bottom, in a column of `total` dots. */
  function RowFill(total: nat, r: nat): nat {
    var dots := SatSub(total, r * 8);
    if dots >= 8 then 8 else dots
  }

  // ---------------------------------------------------------------------
  // The screen buffer
  // ---------------------------------------------------------------------

  datatype Cell = Blank | Vertical | Corner | Horizontal | Fill(dots: nat) | Other

  predicate InRows(g: Region, y: nat) {
    g.y <= y < g.y + g.h
  }

  /** What the bars leave in cell (x, y) of a plot over `g`, where `was` stood before. */
  function Bars(data: seq<real>, max: real, g: Region, was: Cell, x: nat, y: nat): Cell
    requires max > 0.0
  {
    if g.x < x <= g.x + PlotW(g.w) && InRows(g, y) then
      var k := SampleAt(|data|, PlotW(g.w), x - g.x - 1);
      var dots := if k.Some? then RowFill(TotalDots(data[k.value], max, g.h), g.y + g.h - 1 - y) else 0;
      if dots > 0 then Fill(dots) else was
    else was
  }

  /** The whole plot: axes and bars. */
  function Drawn(data: seq<real>, max: real, g: Region, was: Cell, x: nat, y: nat): Cell
    requires max > 0.0
  {
    if g.w < 34 || g.h < 3 then was
    else if x == g.x && InRows(g, y) then Vertical
    else if y == g.y + g.h && g.x <= x <= g.x + PlotW(g.w) then
      if x == g.x then Corner else Horizontal
    else if x == g.x + g.w - 12 && InRows(g, y) then Vertical
    else if x == g.x + g.w - 11 && InRows(g, y) then Blank
    else Bars(data, max, g, was, x, y)
  }

  predicate OnScreen(cells: array2<Cell>, x: nat, y: nat) {
    x < cells.Length0 && y < cells.Length1
  }

  /** Writes `text` from (x, y) rightwards, clipped at the buffer's edge. */
  method SetStr(cells: array2<Cell>, x: nat, y: nat, text: seq<Cell>)
    modifies cells
    ensures forall a: nat, b: nat :: OnScreen(cells, a, b) ==>
              cells[a, b] == if b == y && x <= a < x + |text| then text[a - x] else old(cells[a, b])
  {
    if x >= cells.Length0 || y >= cells.Length1 {
      return;
    }
    var n := Min(|text|, cells.Length0 - x);
    for k := 0 to n
      invariant forall a: nat, b: nat :: OnScreen(cells, a, b) ==>
                  cells[a, b] == if b == y && x <= a < x + k then text[a - x] else old(cells[a, b])
    {
      cells[x + k, y] := text[k];
    }
  }

  /** Writes `text` at column `x` of every row of the plot. */
  method DrawAxis(cells: array2<Cell>, g: Region, x: nat, text: seq<Cell>)
    requires g.h >= 1
    modifies cells
    ensures forall a: nat, b: nat :: OnScreen(cells, a, b) ==>
              cells[a, b] == if InRows(g, b) && x <= a < x + |text| then text[a - x] else old(cells[a, b])
  {
    for r := 0 to g.h
      invariant forall a: nat, b: nat :: OnScreen(cells, a, b) ==>
                  cells[a, b] == if g.y + g.h - r <= b < g.y + g.h && x <= a < x + |text| then text[a - x]
                                 else old(cells[a, b])
    {
      SetStr(cells, x, g.y + g.h - 1 - r, text);
    }
  }

  /** One bar: the rows from the bottom up, as far as the dots go. */
  method DrawColumn(cells: array2<Cell>, g: Region, x: nat, total: nat)
    requires g.h >= 1
    modifies cells
    ensures forall a: nat, b: nat :: OnScreen(cells, a, b) ==>
              cells[a, b] == if a == x && InRows(g, b) && RowFill(total, g.y + g.h - 1 - b) > 0
                             then Fill(RowFill(total, g.y + g.h - 1 - b)) else old(cells[a, b])
  {
    for r := 0 to g.h
      invariant forall a: nat, b: nat :: OnScreen(cells, a, b) ==>
                  cells[a, b] == if a == x && g.y + g.h - r <= b < g.y + g.h
                                    && RowFill(total, g.y + g.h - 1 - b) > 0
                                 then Fill(RowFill(total, g.y + g.h - 1 - b)) else old(cells[a, b])
    {
      var y := g.y + g.h - 1 - r;
      var dots := RowFill(total, r);
      if dots > 0 && x < cells.Length0 && y < cells.Length1 {
        cells[x, y] := Fill(dots);
      }
    }
  }

  method DrawColumns(cells: array2<Cell>, g: Region, data: seq<real>, max: real)
    requires max > 0.0 && g.h >= 1
    modifies cells
    ensures forall a: nat, b: nat :: OnScreen(cells, a, b) ==>
              cells[a, b] == Bars(data, max, g, old(cells[a, b]), a, b)
  {
    var plotW := PlotW(g.w);
    for i := 0 to plotW
      invariant forall a: nat, b: nat :: OnScreen(cells, a, b) ==>
                  cells[a, b] == if a <= g.x + i then Bars(data, max, g, old(cells[a, b]), a, b)
                                 else old(cells[a, b])
    {
      var k := SampleAt(|data|, plotW, i);
      if k.Some? {
        var total := TotalDots(data[k.value], max, g.h);
        DrawColumn(cells, g, g.x + 1 + i, total);
      }
    }
  }

  /** Draws axes and bars; nothing at all in a region too small for them. */
  method DrawBarGraph(cells: array2<Cell>, g: Region, data: seq<real>, max: real)
    requires max > 0.0
    modifies cells
    ensures forall a: nat, b: nat :: OnScreen(cells, a, b) ==>
              cells[a, b] == Drawn(data, max, g, old(cells[a, b]), a, b)
  {
    if g.w < 34 || g.h < 3 {
      return;
    }
    DrawAxis(cells, g, g.x, [Vertical]);
    var line := seq(1 + PlotW(g.w), i => if i == 0 then Corner else Horizontal);
    SetStr(cells, g.x, g.y + g.h, line);
    DrawColumns(cells, g, data, max);
    DrawAxis(cells, g, g.x + g.w - 12, [Vertical, Blank]);
  }

  /** Where the bars of the layout's plot region go: below its caption row. */
  function BarRegion(g: Region): Region {
    Region(g.x, g.y + 1, g.w, g.h)
  }

  method DrawGraphBlock(cells: array2<Cell>, g: Region, data: seq<real>)
    modifies cells
    ensures GraphScale(Peak(data)) > 0.0
    ensures forall a: nat, b: nat :: OnScreen(cells, a, b) ==>
              cells[a, b] == Drawn(data, GraphScale(Peak(data)), BarRegion(g), old(cells[a, b]), a, b)
  {
    var scale := GraphScale(Peak(data));
    DrawBarGraph(cells, BarRegion(g), data, scale);
  }

  // ---------------------------------------------------------------------
  // Properties
  // ---------------------------------------------------------------------

  /** The columns show exactly the newest samples that fit, in order, against the right edge. */
  lemma ColumnsShowTheNewest(data: seq<real>, plotW: nat, i: nat)
    requires i < plotW
    ensures var blank := plotW - |Shown(data, plotW)|;
            var k := SampleAt(|data|, plotW, i);
            if i < blank then k == None
            else k.Some? && data[k.value] == Shown(data, plotW)[i - blank]
    ensures |Shown(data, plotW)| == Min(|data|, plotW) && Shown(data, plotW) == data[|data| - |Shown(data, plotW)|..]
  {
  }

  /** Dots in the lowest `n` rows of column `x`. */
  function ColumnDots(data: seq<real>, max: real, g: Region, x: nat, n: nat): nat
    requires max > 0.0 && n <= g.h
  {
    if n == 0 then 0
    else
      var c := Drawn(data, max, g, Blank, x, g.y + g.h - n);
      ColumnDots(data, max, g, x, n - 1) + (if c.Fill? then c.dots else 0)
  }

  /** Over the lowest `n` rows a bar has spent as many of its dots as fit. */
  lemma {:induction false} RowsTakeDotsInTurn(data: seq<real>, max: real, g: Region, i: nat, k: nat, n: nat)
    requires max > 0.0 && g.w >= 34 && g.h >= 3 && n <= g.h && i < PlotW(g.w)
    requires SampleAt(|data|, PlotW(g.w), i) == Some(k)
    ensures ColumnDots(data, max, g, g.x + 1 + i, n) == Min(TotalDots(data[k], max, g.h), 8 * n)
  {
    if n > 0 {
      RowsTakeDotsInTurn(data, max, g, i, k, n - 1);
      var total := TotalDots(data[k], max, g.h);
      assert g.y + g.h - 1 - (g.y + g.h - n) == n - 1;
      assert Drawn(data, max, g, Blank, g.x + 1 + i, g.y + g.h - n)
          == if RowFill(total, n - 1) > 0 then Fill(RowFill(total, n - 1)) else Blank;
    }
  }

  lemma {:induction false} EmptyColumn(data: seq<real>, max: real, g: Region, i: nat, n: nat)
    requires max > 0.0 && g.w >= 34 && g.h >= 3 && n <= g.h && i < PlotW(g.w)
    requires SampleAt(|data|, PlotW(g.w), i) == None
    ensures ColumnDots(data, max, g, g.x + 1 + i, n) == 0
  {
    if n > 0 {
      EmptyColumn(data, max, g, i, n - 1);
    }
  }

  /** The dots of a sample on the scale are the truncated share of all dots, and all of them off it. */
  lemma DotsAreTheShare(val: real, max: real, height: nat)
    requires max > 0.0
    ensures val <= 0.0 ==> TotalDots(val, max, height) == 0
    ensures val >= max ==> TotalDots(val, max, height) == 8 * height
    ensures 0.0 <= val <= max ==>
              var exact := val / max * (height * 8) as real;
              TotalDots(val, max, height) as real <= exact < TotalDots(val, max, height) as real + 1.0
  {
    var q := val / max;
    assert q * max == val;
    if val >= max {
      RatioAtLeastOne(val, max);
      PortionIsTruncation(1.0, height * 8);
    } else if val >= 0.0 {
      RatioBound(val, max, 1.0);
      assert 0.0 <= q <= 1.0;
      PortionIsTruncation(q, height * 8);
    } else {
      RatioBound(val, max, 0.0);
      PortionIsTruncation(0.0, height * 8);
    }
  }

  lemma PortionIsTruncation(r: real, n: nat)
    requires 0.0 <= r <= 1.0
    ensures Portion(r, n) as real <= r * n as real < Portion(r, n) as real + 1.0
    ensures r == 1.0 ==> Portion(r, n) == n
  {
    PortionRange(r, n as real);
  }

  lemma RatioAtLeastOne(val: real, max: real)
    requires max > 0.0 && val >= max
    ensures Ratio(val, max) == 1.0
  {
    var q := val / max;
    assert q * max == val;
    if q < 1.0 {
      TimesIsStrict(1.0, q, max);
      assert false;
    }
  }

  /**
   No dot is lost or invented: on a cleared screen the cells of a column add up to exactly
   the dots of the sample it shows, and a column without a sample stays empty.
   */
  lemma DotsAreConserved(data: seq<real>, max: real, g: Region, i: nat)
    requires max > 0.0 && g.w >= 34 && g.h >= 3 && i < PlotW(g.w)
    ensures var shown := Shown(data, PlotW(g.w));
            var blank := PlotW(g.w) - |shown|;
            ColumnDots(data, max, g, g.x + 1 + i, g.h)
            == if i < blank then 0 else TotalDots(shown[i - blank], max, g.h)
  {
    ColumnsShowTheNewest(data, PlotW(g.w), i);
    var k := SampleAt(|data|, PlotW(g.w), i);
    if k.Some? {
      RowsTakeDotsInTurn(data, max, g, i, k.value, g.h);
    } else {
      EmptyColumn(data, max, g, i, g.h);
    }
  }

  /** Bars stand on the bottom row: under a cell with dots every cell is full. */
  lemma BarsAreFilledFromTheBottom(data: seq<real>, max: real, g: Region, x: nat, y: nat, below: nat)
    requires max > 0.0 && InRows(g, y) && y < below < g.y + g.h
    requires Drawn(data, max, g, Blank, x, y).Fill?
    ensures 1 <= Drawn(data, max, g, Blank, x, y).dots <= 8
    ensures Drawn(data, max, g, Blank, x, below) == Fill(8)
  {
  }

  /** The plot changes nothing outside its block, and no bar reaches the right axis. */
  lemma PlotStaysInItsBlock(data: seq<real>, max: real, g: Region, was: Cell, x: nat, y: nat)
    requires max > 0.0
    ensures Drawn(data, max, BarRegion(g), was, x, y) != was ==> InRegion(PlotBlock(g), x, y)
    ensures Drawn(data, max, g, was, x, y).Fill? && !was.Fill? ==> g.x < x && x + 2 <= g.x + g.w - 12
  {
  }

  lemma TimesIsStrict(a: real, b: real, m: real)
    requires m > 0.0 && a > b
    ensures a * m > b * m
  {
  }

  lemma RatioBound(val: real, max: real, bound: real)
    requires max > 0.0 && 0.0 <= bound && val <= bound * max
    ensures Ratio(val, max) <= bound
  {
    var q := val / max;
    assert q * max == val;
    if q > bound {
      TimesIsStrict(q, bound, max);
      assert false;
    }
  }

  lemma PortionMono(a: real, b: real, n: nat)
    requires 0.0 <= a <= b <= 1.0
    ensures Portion(a, n) <= Portion(b, n)
  {
    PortionRange(b - a, n as real);
    assert b * n as real == a * n as real + (b - a) * n as real;
  }

  /** A higher sample never gets fewer dots. */
  lemma DotsAreMonotone(low: real, high: real, max: real, height: nat)
    requires max > 0.0 && low <= high
    ensures TotalDots(low, max, height) <= TotalDots(high, max, height)
  {
    var q := high / max;
    assert q * max == high;
    if q <= 1.0 {
      if q >= 0.0 {
        RatioBound(low, max, q);
      } else {
        RatioBound(low, max, 0.0);
      }
    }
    PortionMono(Ratio(low, max), Ratio(high, max), height * 8);
  }

  /** With a fifth of headroom a sample uses at most five sixths of the dots. */
  lemma FiveSixths(val: real, max: real, height: nat)
    requires max > 0.0 && val * 1.2 <= max
    ensures 6 * TotalDots(val, max, height) <= 40 * height
  {
    RatioBound(val, max, 5.0 / 6.0);
    PortionMono(Ratio(val, max), 5.0 / 6.0, height * 8);
  }

  lemma PeakHasHeadroom(data: seq<real>, k: nat)
    requires k < |data| && Peak(data) * 1.2 <= 500.0
    ensures GraphScale(Peak(data)) > 0.0 && data[k] * 1.2 <= GraphScale(Peak(data))
  {
    ScaleFitsExactly(Peak(data));
  }

  /**
   While the peak leaves headroom, no bar uses more than five sixths of the plot, so from
   six rows on the top row of the plot stays free.
   */
  lemma PeakKeepsHeadroom(data: seq<real>, k: nat, height: nat)
    requires k < |data| && Peak(data) * 1.2 <= 500.0
    ensures GraphScale(Peak(data)) > 0.0
    ensures 6 * TotalDots(data[k], GraphScale(Peak(data)), height) <= 40 * height
    ensures height >= 6 ==> RowFill(TotalDots(data[k], GraphScale(Peak(data)), height), height - 1) == 0
  {
    PeakHasHeadroom(data, k);
    FiveSixths(data[k], GraphScale(Peak(data)), height);
  }

  /** Bars are cut off at the top exactly when the peak is above 500 W. */
  lemma BarsAreCutExactly(data: seq<real>)
    ensures (exists k :: 0 <= k < |data| && data[k] > GraphScale(Peak(data))) <==> Peak(data) > 500.0
  {
    ScaleFitsExactly(Peak(data));
    if Peak(data) > 500.0 {
      var k :| 0 <= k < |data| && data[k] == Peak(data);
    }
  }

  // ---------------------------------------------------------------------
  // Geometry
  // ---------------------------------------------------------------------

  /**
   Where the axes stand, in a region of at least 34 by 3: left in the first column, the bottom
   one below the last row under all bars, right twelve columns before the end; the bars have
   the 14 columns fewer between them. A smaller region stays as it was.
   */
  lemma AxesExactly(data: seq<real>, max: real, g: Region, was: Cell, x: nat, y: nat)
    requires max > 0.0
    ensures g.w < 34 || g.h < 3 ==> Drawn(data, max, g, was, x, y) == was
    ensures g.w >= 34 && g.h >= 3 ==>
              var c := Drawn(data, max, g, was, x, y);
              var inRows := g.y <= y < g.y + g.h;
              && (inRows && (x == g.x || x == g.x + g.w - 12) ==> c == Vertical)
              && (inRows && x == g.x + g.w - 11 ==> c == Blank)
              && (y == g.y + g.h && x == g.x ==> c == Corner)
              && (y == g.y + g.h && g.x < x <= g.x + g.w - 14 ==> c == Horizontal)
              && (inRows && g.x < x <= g.x + g.w - 14 ==> c == was || c.Fill?)
              && (!inRows && y != g.y + g.h ==> c == was)
              && (x < g.x || x > g.x + g.w - 11 || x == g.x + g.w - 13 ==> c == was)
  {
  }

  /** The block's caption row is left alone; bars fill the rows below it, and the axis the one after them. */
  lemma CaptionRowIsLeftAlone(data: seq<real>, max: real, g: Region, was: Cell, x: nat, y: nat)
    requires max > 0.0
    ensures y <= g.y || y > g.y + g.h + 1 ==> Drawn(data, max, BarRegion(g), was, x, y) == was
    ensures Drawn(data, max, BarRegion(g), was, x, y) != was && Drawn(data, max, BarRegion(g), was, x, y).Fill? ==>
              g.y + 1 <= y <= g.y + g.h
    ensures g.w >= 34 && g.h >= 3 && y == g.y + g.h + 1 && x == g.x ==>
              Drawn(data, max, BarRegion(g), was, x, y) == Corner
  {
  }

  /** The scale, step by step: step `k` is taken when it, but not the one before, reaches 1.2 times the peak. */
  lemma ScaleTable(peak: real, k: nat)
    requires peak > 0.0 && k < 16
    ensures var steps := [5.0, 10.0, 15.0, 20.0, 25.0, 30.0, 40.0, 50.0, 60.0, 80.0,
                          100.0, 120.0, 150.0, 200.0, 300.0, 500.0];
            (k == 0 || steps[k - 1] < peak * 1.2) && (peak * 1.2 <= steps[k] || k == 15) ==>
              GraphScale(peak) == steps[k]
  {
    if (k == 0 || STEPS[k - 1] < peak * 1.2) && (peak * 1.2 <= STEPS[k] || k == 15) {
      SearchStops(0, k, peak * 1.2);
    }
  }

  lemma StepsRise(i: nat, j: nat)
    requires i <= j < 16
    ensures STEPS[i] <= STEPS[j]
  {
  }

  lemma {:induction false} SearchStops(j: nat, k: nat, need: real)
    requires j <= k < 16 && (k == 0 || STEPS[k - 1] < need) && (need <= STEPS[k] || k == 15)
    ensures StepFrom(j, need) == STEPS[k]
    decreases k - j
  {
    if j < k {
      StepsRise(j, k - 1);
      SearchStops(j + 1, k, need);
    }
  }
}
