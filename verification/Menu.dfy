/**
 The dashboard's menu: moving the selection, scrolling the window after it, the scrollbar,
 and the text of one row. A menu is given by which of its items are headers.
 */
module Menu {
  import opened Prelude

  // ---------------------------------------------------------------------
  // Selection
  // ---------------------------------------------------------------------

  /** First entry that is no header, from `j` on. */
  function NextFrom(headers: seq<bool>, j: nat): (r: Option<nat>)
    ensures r.None? ==> forall k :: j <= k < |headers| ==> headers[k]
    ensures r.Some? ==> j <= r.value < |headers| && !headers[r.value]
                        && forall k :: j <= k < r.value ==> headers[k]
    decreases |headers| - j
  {
    if j >= |headers| then None
    else if !headers[j] then Some(j)
    else NextFrom(headers, j + 1)
  }

  /** Last entry that is no header, below `j`. */
  function PrevBelow(headers: seq<bool>, j: nat): (r: Option<nat>)
    requires j <= |headers|
    ensures r.None? ==> forall k :: 0 <= k < j ==> headers[k]
    ensures r.Some? ==> r.value < j && !headers[r.value]
                        && forall k :: r.value < k < j ==> headers[k]
  {
    if j == 0 then None
    else if !headers[j - 1] then Some(j - 1)
    else PrevBelow(headers, j - 1)
  }

  /** The nearest entry in the given direction, or no move. */
  function StepOf(headers: seq<bool>, selected: nat, forward: bool): nat
    requires forward || selected <= |headers|
  {
    var r := if forward then NextFrom(headers, selected + 1) else PrevBelow(headers, selected);
    if r.Some? then r.value else selected
  }

  /** The selection step as it walks the menu. */
  method StepSelection(headers: seq<bool>, selected: nat, forward: bool) returns (r: nat)
    requires forward || selected <= |headers|
    ensures r == StepOf(headers, selected, forward)
  {
    if forward {
      var next := selected + 1;
      while next < |headers| && headers[next]
        invariant selected < next
        invariant NextFrom(headers, selected + 1) == NextFrom(headers, next)
      {
        next := next + 1;
      }
      return if next < |headers| then next else selected;
    }
    var prev: nat := selected;
    while prev > 0
      invariant prev <= selected
      invariant PrevBelow(headers, selected) == PrevBelow(headers, prev)
    {
      prev := prev - 1;
      if !headers[prev] {
        return prev;
      }
    }
    r := selected;
  }

  predicate IsEntry(headers: seq<bool>, k: nat) {
    k < |headers| && !headers[k]
  }

  /** A step lands on an entry with only headers passed over, and stays only at the end. */
  lemma StepIsNearest(headers: seq<bool>, selected: nat, forward: bool)
    requires selected <= |headers|
    ensures var r := StepOf(headers, selected, forward);
            if forward then
              r >= selected && (forall k :: selected < k < |headers| && (k < r || r == selected) ==> headers[k])
            else
              r <= selected && (forall k :: 0 <= k < selected && (r < k || r == selected) ==> headers[k])
    ensures StepOf(headers, selected, forward) != selected ==> IsEntry(headers, StepOf(headers, selected, forward))
  {
  }

  /**
   Down and then Up comes back exactly when Down moved, or neither of the two can move.
   The same for Up and then Down.
   */
  lemma StepsAreInverse(headers: seq<bool>, selected: nat, forward: bool)
    requires IsEntry(headers, selected)
    ensures var there := StepOf(headers, selected, forward);
            StepOf(headers, there, !forward) == selected
            <==> there != selected || StepOf(headers, selected, !forward) == selected
  {
    var there := StepOf(headers, selected, forward);
    if there != selected {
      var back := StepOf(headers, there, !forward);
      if forward {
        assert selected <= back;
      } else {
        assert back <= selected;
      }
    }
  }

  /** `n` steps in one direction. */
  function Steps(headers: seq<bool>, selected: nat, forward: bool, n: nat): (r: nat)
    requires selected <= |headers|
    ensures r <= |headers|
    decreases n
  {
    if n == 0 then selected else Steps(headers, StepOf(headers, selected, forward), forward, n - 1)
  }

  /** No entry is out of reach: repeating one key gets from any entry to any other. */
  lemma {:induction false} EveryEntryIsReachable(headers: seq<bool>, start: nat, target: nat, forward: bool)
    requires IsEntry(headers, start) && IsEntry(headers, target)
    requires if forward then start <= target else target <= start
    ensures exists n: nat :: Steps(headers, start, forward, n) == target
    decreases if forward then target - start else start - target
  {
    if start == target {
      assert Steps(headers, start, forward, 0) == target;
    } else {
      var next := StepOf(headers, start, forward);
      StepIsNearest(headers, start, forward);
      EveryEntryIsReachable(headers, next, target, forward);
      var n: nat :| Steps(headers, next, forward, n) == target;
      assert Steps(headers, start, forward, n + 1) == target;
    }
  }

  // ---------------------------------------------------------------------
  // Scrolling, over whole runs of keys and redraws
  // ---------------------------------------------------------------------

  datatype View = View(selected: nat, scroll: nat)

  datatype Event = Down | Up | Redraw(menuH: nat)

  function Initial(headers: seq<bool>): View {
    var first := NextFrom(headers, 0);
    View(if first.Some? then first.value else 0, 0)
  }

  /** A redraw with `v` visible rows; with none the menu is not drawn. */
  function Redrawn(view: View, v: nat): View {
    if v == 0 then view
    else
      var top := if view.selected < view.scroll then view.selected else view.scroll;
      View(view.selected, if view.selected >= top + v then view.selected - v + 1 else top)
  }

  function After(headers: seq<bool>, view: View, e: Event): View
    requires view.selected <= |headers|
  {
    match e
    case Down => view.(selected := StepOf(headers, view.selected, true))
    case Up => view.(selected := StepOf(headers, view.selected, false))
    case Redraw(v) => Redrawn(view, v)
  }

  function RunOf(headers: seq<bool>, run: seq<Event>): (view: View)
    ensures view.selected <= |headers|
  {
    if run == [] then Initial(headers)
    else After(headers, RunOf(headers, run[..|run| - 1]), run[|run| - 1])
  }

  /** A fresh menu has its first entry selected and is not scrolled; without entries it stands at 0. */
  lemma StartsAtTheFirstEntry(headers: seq<bool>)
    ensures Initial(headers).scroll == 0
    ensures forall k :: 0 <= k < Initial(headers).selected && k < |headers| ==> headers[k]
    ensures (exists k: nat :: IsEntry(headers, k)) ==> IsEntry(headers, Initial(headers).selected)
    ensures !(exists k: nat :: IsEntry(headers, k)) ==> Initial(headers).selected == 0
  {
    var first := NextFrom(headers, 0);
    if first.Some? {
      assert IsEntry(headers, first.value);
    }
  }

  /** A menu with no visible row is not drawn and does not scroll. */
  lemma HiddenMenuKeepsItsScroll(view: View)
    ensures Redrawn(view, 0) == view
  {
  }

  class App {
    const headers: seq<bool>
    var selected: nat
    var scroll: nat

    function Now(): View
      reads this
    {
      View(selected, scroll)
    }

    constructor (headers: seq<bool>)
      ensures this.headers == headers && Now() == RunOf(headers, [])
    {
      this.headers := headers;
      selected := Initial(headers).selected;
      scroll := 0;
    }

    method NextMenu()
      requires selected <= |headers|
      modifies this`selected
      ensures Now() == After(headers, old(Now()), Down)
    {
      selected := StepSelection(headers, selected, true);
    }

    method PrevMenu()
      requires selected <= |headers|
      modifies this`selected
      ensures Now() == After(headers, old(Now()), Up)
    {
      selected := StepSelection(headers, selected, false);
    }

    /** The scrolling part of drawing the menu. */
    method ScrollIntoView(menuH: nat)
      requires selected <= |headers|
      modifies this`scroll
      ensures Now() == After(headers, old(Now()), Redraw(menuH))
    {
      if menuH >= 1 {
        if selected < scroll {
          scroll := selected;
        }
        if selected >= scroll + menuH {
          scroll := selected - menuH + 1;
        }
      }
    }
  }

  /** In a menu with any entry the selection is an entry after every run; headers are never selected. */
  lemma {:induction false} SelectionIsAnEntry(headers: seq<bool>, run: seq<Event>, any: nat)
    requires IsEntry(headers, any)
    ensures IsEntry(headers, RunOf(headers, run).selected)
  {
    if run != [] {
      SelectionIsAnEntry(headers, run[..|run| - 1], any);
    }
  }

  /** After a redraw the selected row is in the window, and the window moved no further than it had to. */
  lemma SelectedIsVisible(view: View, v: nat, other: nat)
    requires v >= 1
    ensures var now := Redrawn(view, v);
            && now.selected == view.selected
            && now.scroll <= now.selected < now.scroll + v
            && (other <= now.selected < other + v ==>
                  Max(view.scroll - now.scroll, now.scroll - view.scroll)
                  <= Max(view.scroll - other, other - view.scroll))
  {
  }

  /** Rows of the most recent drawn menu, if any. */
  function LastHeight(run: seq<Event>): (v: Option<nat>)
    ensures v.Some? ==> v.value >= 1
  {
    if run == [] then None
    else
      var e := run[|run| - 1];
      if e.Redraw? && e.menuH >= 1 then Some(e.menuH) else LastHeight(run[..|run| - 1])
  }

  /** Along the run no redraw has more rows than the drawn one before it. */
  predicate NeverGrows(run: seq<Event>) {
    run != [] ==>
      && NeverGrows(run[..|run| - 1])
      && var e := run[|run| - 1];
         var before := LastHeight(run[..|run| - 1]);
         (e.Redraw? && before.Some? ==> e.menuH <= before.value)
  }

  /** The window does not run past the end of the menu. */
  predicate WindowIsFull(headers: seq<bool>, scroll: nat, v: nat) {
    scroll == 0 || scroll + v <= |headers|
  }

  lemma {:induction false} WindowStaysFull(headers: seq<bool>, run: seq<Event>)
    requires NeverGrows(run) && headers != []
    ensures RunOf(headers, run).selected < |headers|
    ensures var v := LastHeight(run);
            if v.Some? then WindowIsFull(headers, RunOf(headers, run).scroll, v.value)
            else RunOf(headers, run).scroll == 0
  {
    if run != [] {
      WindowStaysFull(headers, run[..|run| - 1]);
    }
  }

  // ---------------------------------------------------------------------
  // Scrollbar
  // ---------------------------------------------------------------------

  function ThumbH(v: nat, len: nat): nat
    requires v < len
  {
    Max(v * v / len, 1)
  }

  function ThumbPos(scroll: nat, v: nat, len: nat): nat
    requires v < len
  {
    scroll * SatSub(v, ThumbH(v, len)) / Max(SatSub(len, v), 1)
  }

  predicate ThumbInTrack(scroll: nat, v: nat, len: nat)
    requires v < len
  {
    ThumbPos(scroll, v, len) + ThumbH(v, len) <= v
  }

  lemma ProductBelow(a: nat, b: nat, c: nat)
    requires a <= b
    ensures a * c <= b * c
  {
  }

  lemma QuotientBelow(x: nat, d: nat, t: nat)
    requires d > 0
    ensures x / d <= t <==> x < (t + 1) * d
  {
    var q := x / d;
    assert x == q * d + x % d;
    if q <= t {
      ProductBelow(q, t, d);
    } else {
      ProductBelow(t + 1, q, d);
    }
  }

  lemma ThumbFits(v: nat, len: nat)
    requires 1 <= v < len
    ensures 1 <= ThumbH(v, len) <= v
  {
    QuotientBelow(v * v, len, v);
    ProductBelow(v, len, v);
    assert v * v < (v + 1) * len by {
      assert (v + 1) * len == v * len + len;
    }
  }

  lemma QuotientBounds(x: nat, d: nat)
    requires d > 0
    ensures x / d * d <= x < (x / d + 1) * d
  {
    var q := x / d;
    assert x == q * d + x % d;
    assert (q + 1) * d == q * d + d;
  }

  /** The thumb's height is the visible share of the track, cut to whole rows but at least one. */
  lemma ThumbIsTheVisibleShare(v: nat, len: nat)
    requires 1 <= v < len
    ensures ThumbH(v, len) * len <= v * v < (ThumbH(v, len) + 1) * len || (ThumbH(v, len) == 1 && v * v < len)
  {
    QuotientBounds(v * v, len);
  }

  /** Its position is the scrolled share of the room left for it. */
  lemma ThumbFollowsTheScroll(scroll: nat, v: nat, len: nat, room: nat)
    requires 1 <= v < len && room == v - ThumbH(v, len)
    ensures ThumbPos(scroll, v, len) * (len - v) <= scroll * room < (ThumbPos(scroll, v, len) + 1) * (len - v)
  {
    QuotientBounds(scroll * room, len - v);
  }

  /** The thumb stays in its track exactly while the window is not too far past the end. */
  lemma ThumbInTrackExactly(scroll: nat, v: nat, len: nat)
    requires 1 <= v < len
    ensures ThumbInTrack(scroll, v, len)
            <==> (scroll - (len - v)) * (v - ThumbH(v, len)) < len - v
  {
    ThumbFits(v, len);
    var d, t: nat := len - v, v - ThumbH(v, len);
    QuotientBelow(scroll * t, d, t);
    assert (scroll - d) * t == scroll * t - d * t;
    assert (t + 1) * d == d * t + d;
  }

  /** Thumb at the top for the first window, at the very bottom for the last. */
  lemma ThumbEnds(v: nat, len: nat)
    requires 1 <= v < len
    ensures ThumbPos(0, v, len) == 0
    ensures ThumbPos(len - v, v, len) + ThumbH(v, len) == v
  {
    ThumbFits(v, len);
    var d, t: nat := len - v, v - ThumbH(v, len);
    DivisionIsUnique(d * t, d, t, 0);
  }

  /**
   Over any run of keys and redraws in which the menu never gets taller, the thumb is in
   its track at every redraw, and no visible row is wasted past the end.
   */
  lemma ThumbStaysInItsTrack(headers: seq<bool>, run: seq<Event>)
    requires NeverGrows(run) && LastHeight(run).Some? && LastHeight(run).value < |headers|
    ensures ThumbInTrack(RunOf(headers, run).scroll, LastHeight(run).value, |headers|)
    ensures RunOf(headers, run).scroll + LastHeight(run).value <= |headers|
  {
    WindowStaysFull(headers, run);
    var v, scroll, len := LastHeight(run).value, RunOf(headers, run).scroll, |headers|;
    ThumbFits(v, len);
    ThumbInTrackExactly(scroll, v, len);
    ProductBelow(0, (len - v) - scroll, v - ThumbH(v, len));
    assert (scroll - (len - v)) * (v - ThumbH(v, len)) == -(((len - v) - scroll) * (v - ThumbH(v, len)));
  }

  /** Growing the menu is enough to push the thumb out: four entries, one row, then three. */
  lemma GrowingPushesTheThumbOut()
    ensures var headers := [false, false, false, false];
            var run := [Redraw(1), Down, Down, Down, Redraw(1), Redraw(3)];
            LastHeight(run) == Some(3) && !ThumbInTrack(RunOf(headers, run).scroll, 3, |headers|)
  {
    var headers := [false, false, false, false];
    var run := [Redraw(1), Down, Down, Down, Redraw(1), Redraw(3)];
    assert run[..5] == [Redraw(1), Down, Down, Down, Redraw(1)];
    assert run[..5][..4] == [Redraw(1), Down, Down, Down];
    assert run[..5][..4][..3] == [Redraw(1), Down, Down];
    assert run[..5][..4][..3][..2] == [Redraw(1), Down];
    assert run[..5][..4][..3][..2][..1] == [Redraw(1)];
    assert RunOf(headers, [Redraw(1)]) == View(0, 0);
    assert RunOf(headers, [Redraw(1), Down]) == View(1, 0);
    assert RunOf(headers, [Redraw(1), Down, Down]) == View(2, 0);
    assert RunOf(headers, [Redraw(1), Down, Down, Down]) == View(3, 0);
    assert RunOf(headers, [Redraw(1), Down, Down, Down, Redraw(1)]) == View(3, 3);
    assert RunOf(headers, run) == View(3, 3);
  }

  // ---------------------------------------------------------------------
  // One row of text
  // ---------------------------------------------------------------------

  function Spaces(n: nat): (s: string)
    ensures |s| == n && forall k :: 0 <= k < n ==> s[k] == ' '
  {
    seq(n, _ => ' ')
  }

  /** At most `w` characters of `text`, the cut marked with three dots where they fit. */
  function Fit(text: string, w: nat): string {
    if |text| <= w then text
    else if w <= 3 then text[..w]
    else text[..w - 3] + "..."
  }

  function PadRight(text: string, w: nat): string {
    text + Spaces(SatSub(w, |text|))
  }

  function PadLeft(text: string, w: nat): string {
    Spaces(SatSub(w, |text|)) + text
  }

  function ValueW(menuW: nat): nat {
    Min(Clamp(menuW / 3, 5, 15), SatSub(menuW, 1))
  }

  function NameW(menuW: nat, prefix: string): nat {
    Max(SatSub(menuW, Min(|prefix|, menuW) + ValueW(menuW) + 1), 1)
  }

  /** The row before it is cut to the menu's width. */
  function FullLine(menuW: nat, prefix: string, name: string, value: string): string {
    prefix + PadRight(Fit(name, NameW(menuW, prefix)), NameW(menuW, prefix))
    + " " + PadLeft(Fit(value, ValueW(menuW)), ValueW(menuW))
  }

  function MenuLine(menuW: nat, prefix: string, name: string, value: string): string {
    if menuW == 0 then ""
    else
      var line := FullLine(menuW, prefix, name, value);
      line[..Min(|line|, menuW)]
  }

  lemma FitIsAPrefix(text: string, w: nat)
    ensures |Fit(text, w)| == Min(|text|, w)
    ensures Fit(text, w) == text <==> |text| <= w
    ensures |text| <= w || w <= 3 ==> Fit(text, w) <= text
    ensures |text| > w > 3 ==> text[..w - 3] <= Fit(text, w) && Fit(text, w)[w - 3..] == "..."
  {
  }

  lemma FullLineLength(menuW: nat, prefix: string, name: string, value: string)
    requires menuW > 0
    ensures |FullLine(menuW, prefix, name, value)| == |prefix| + NameW(menuW, prefix) + 1 + ValueW(menuW)
  {
    FitIsAPrefix(name, NameW(menuW, prefix));
    FitIsAPrefix(value, ValueW(menuW));
  }

  /**
   Every row is exactly as wide as the menu, whatever the texts. Nothing is cut off it
   exactly when prefix, value field, one name column and the gap fit.
   */
  lemma RowsAreExactlyAsWide(menuW: nat, prefix: string, name: string, value: string)
    ensures |MenuLine(menuW, prefix, name, value)| == menuW
    ensures menuW > 0 ==>
              (MenuLine(menuW, prefix, name, value) == FullLine(menuW, prefix, name, value)
               <==> |prefix| + ValueW(menuW) + 2 <= menuW)
  {
    if menuW > 0 {
      FullLineLength(menuW, prefix, name, value);
      var line := FullLine(menuW, prefix, name, value);
      assert |line| <= menuW ==> line[..Min(|line|, menuW)] == line;
    }
  }

  /** The value field is a third of the row, between 5 and 15 columns, and never the whole row. */
  lemma ValueFieldWidth(menuW: nat)
    ensures menuW >= 45 ==> ValueW(menuW) == 15
    ensures 15 <= menuW < 45 ==> 3 * ValueW(menuW) <= menuW < 3 * (ValueW(menuW) + 1)
    ensures 6 <= menuW < 15 ==> ValueW(menuW) == 5
    ensures 1 <= menuW < 6 ==> ValueW(menuW) == menuW - 1
  {
  }

  /** A full row up to the text of its value. */
  function Front(menuW: nat, prefix: string, name: string, value: string): string {
    prefix + PadRight(Fit(name, NameW(menuW, prefix)), NameW(menuW, prefix))
    + " " + Spaces(SatSub(ValueW(menuW), |Fit(value, ValueW(menuW))|))
  }

  lemma FullLineSplits(menuW: nat, prefix: string, name: string, value: string)
    ensures FullLine(menuW, prefix, name, value) == Front(menuW, prefix, name, value) + Fit(value, ValueW(menuW))
    ensures prefix + Fit(name, NameW(menuW, prefix)) <= FullLine(menuW, prefix, name, value)
  {
    var field := PadRight(Fit(name, NameW(menuW, prefix)), NameW(menuW, prefix));
    var gap := Spaces(SatSub(ValueW(menuW), |Fit(value, ValueW(menuW))|));
    var shown := Fit(value, ValueW(menuW));
    assert prefix + field + " " + (gap + shown) == prefix + field + " " + gap + shown;
    var name' := Fit(name, NameW(menuW, prefix));
    var pad := Spaces(SatSub(NameW(menuW, prefix), |name'|));
    assert prefix + field + " " + (gap + shown) == prefix + name' + (pad + " " + (gap + shown));
  }

  lemma EndOf(front: string, end: string, line: string)
    requires line == front + end
    ensures line[|line| - |end|..] == end
  {
  }

  /** Rows of one menu line up: the value ends at the right edge, from ten columns on. */
  lemma ValuesAreRightAligned(menuW: nat, prefix: string, name: string, value: string)
    requires |prefix| == 3
    ensures menuW > 0 ==>
              (MenuLine(menuW, prefix, name, value) == FullLine(menuW, prefix, name, value) <==> menuW >= 10)
    ensures menuW >= 10 ==>
              var line := MenuLine(menuW, prefix, name, value);
              && prefix + Fit(name, NameW(menuW, prefix)) <= line
              && line[menuW - |Fit(value, ValueW(menuW))|..] == Fit(value, ValueW(menuW))
  {
    RowsAreExactlyAsWide(menuW, prefix, name, value);
    if menuW >= 10 {
      FullLineSplits(menuW, prefix, name, value);
      EndOf(Front(menuW, prefix, name, value), Fit(value, ValueW(menuW)), FullLine(menuW, prefix, name, value));
    }
  }
}
