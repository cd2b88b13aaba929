/**
 * The rules of the terminal (src/lib/cnc_terminal.c) on values: which
 * widget ct_focus_widget and ct_focus_next leave focused, the row layout
 * of ct_setup_widgets, and the vi-like motions of a prompt or a display
 * as functions of the widget and its buffer's tokens.  The Terminal
 * module runs them on its state.
 */
module TerminalRules {
  import opened Basics
  import opened TermToken
  import opened TokenBuffer
  import opened Widget
  import opened Keys

  /** ct_mode */
  datatype Mode = CommandMode | InsertMode

  // ---------------------------------------------------------------------
  // Views of the widget list
  // ---------------------------------------------------------------------

  function Kinds(ws: seq<Widget>): (r: seq<WidgetType>)
    ensures |r| == |ws| && forall i :: 0 <= i < |ws| ==> r[i] == ws[i].kind
  {
    seq(|ws|, i requires 0 <= i < |ws| => ws[i].kind)
  }

  function Heights(ws: seq<Widget>): (r: seq<nat>)
    ensures |r| == |ws| && forall i :: 0 <= i < |ws| ==> r[i] == ws[i].height
  {
    seq(|ws|, i requires 0 <= i < |ws| => ws[i].height)
  }

  function FocusFlags(ws: seq<Widget>): (r: seq<bool>)
    ensures |r| == |ws| && forall i :: 0 <= i < |ws| ==> r[i] == ws[i].hasFocus
  {
    seq(|ws|, i requires 0 <= i < |ws| => ws[i].hasFocus)
  }

  function CanFocusFlags(ws: seq<Widget>): (r: seq<bool>)
    ensures |r| == |ws| && forall i :: 0 <= i < |ws| ==> r[i] == ws[i].canFocus
  {
    seq(|ws|, i requires 0 <= i < |ws| => ws[i].canFocus)
  }

  function Sum(s: seq<nat>): nat
  {
    if s == [] then 0 else Sum(s[..|s| - 1]) + s[|s| - 1]
  }

  /** SumStep, stated for the prefix of length k. */
  lemma SumLast(s: seq<nat>, k: nat)
    requires 0 < k <= |s|
    ensures Sum(s[..k]) == Sum(s[..k - 1]) + s[k - 1]
  {
    SumStep(s, k - 1);
  }

  lemma SumStep(s: seq<nat>, i: nat)
    requires i < |s|
    ensures Sum(s[..i + 1]) == Sum(s[..i]) + s[i]
  {
    assert s[..i + 1][..i] == s[..i];
  }

  // ---------------------------------------------------------------------
  // Focus
  // ---------------------------------------------------------------------

  predicate AtMostOne(flags: seq<bool>)
  {
    forall i, j :: 0 <= i < |flags| && 0 <= j < |flags| && flags[i] && flags[j] ==> i == j
  }

  /** The first index from `from` on, other than `target`, whose flag is set; |flags| when there is none. */
  function FirstOther(flags: seq<bool>, target: nat, from: nat): (r: nat)
    requires from <= |flags|
    ensures from <= r <= |flags|
    ensures r < |flags| ==> r != target && flags[r]
    ensures forall j :: from <= j < r && j != target ==> !flags[j]
    decreases |flags| - from
  {
    if from == |flags| then from
    else if from != target && flags[from] then from
    else FirstOther(flags, target, from + 1)
  }

  /**
   * The has_focus flags after ct_focus_widget acts on `target`: the first
   * other widget with the focus loses it, and `target` gains it.
   */
  function Refocused(flags: seq<bool>, target: nat): (r: seq<bool>)
    requires target < |flags|
  {
    Moved(flags, FirstOther(flags, target, 0), target)
  }

  /** The flags with the one at `from` (if any) cleared and the one at `target` set. */
  function Moved(flags: seq<bool>, from: nat, target: nat): (r: seq<bool>)
    ensures |r| == |flags|
    ensures forall k :: 0 <= k < |flags| ==> r[k] == (k == target || (flags[k] && k != from))
  {
    seq(|flags|, k requires 0 <= k < |flags| => k == target || (flags[k] && k != from))
  }

  /** With at most one focused widget before, exactly the target has the focus after. */
  lemma RefocusedIsOnlyFocus(flags: seq<bool>, target: nat)
    requires target < |flags| && AtMostOne(flags)
    ensures |Refocused(flags, target)| == |flags|
    ensures forall k :: 0 <= k < |flags| ==> (Refocused(flags, target)[k] <==> k == target)
    ensures AtMostOne(Refocused(flags, target))
  {
    var j := FirstOther(flags, target, 0);
    var r := Refocused(flags, target);
    forall k | 0 <= k < |flags|
      ensures r[k] <==> k == target
    {
      if k != target && flags[k] {
        assert k >= j;
        assert j == k;
      }
    }
  }

  /**
   * The scan of ct_focus_next: for the steps i, i+1, ..., n, the first
   * step whose widget (f + step) % n can take the focus, where f is the
   * index of the focused widget or -1.
   */
  function FocusStep(canFocus: seq<bool>, f: int, i: nat): (r: Option<nat>)
    requires -1 <= f < |canFocus| && 1 <= i
    ensures r.Some? ==> i <= r.value <= |canFocus| && canFocus[Slot(f, r.value, |canFocus|)]
    ensures r.Some? ==> forall m :: i <= m < r.value ==> !canFocus[Slot(f, m, |canFocus|)]
    ensures r.None? ==> forall m :: i <= m <= |canFocus| ==> !canFocus[Slot(f, m, |canFocus|)]
    decreases |canFocus| + 1 - i
  {
    if i > |canFocus| then None
    else if canFocus[Slot(f, i, |canFocus|)] then Some(i)
    else FocusStep(canFocus, f, i + 1)
  }

  /** The widget `step` places after f: (f + step) % n, as ct_focus_next computes it in size_t. */
  function Slot(f: int, step: nat, n: nat): (r: nat)
    requires -1 <= f < n && 1 <= step <= n
    ensures f + step < n ==> r == f + step
    ensures f + step >= n ==> r == f + step - n
  {
    WrapsOnce(f + step, n);
    (f + step) % n
  }

  /** Below 2n the remainder by n takes n off at most once. */
  lemma WrapsOnce(x: int, n: int)
    requires 0 < n && 0 <= x < 2 * n
    ensures x < n ==> x % n == x
    ensures x >= n ==> x % n == x - n
  {
    var q := x / n;
    assert x == q * n + x % n;
    assert q >= 2 ==> q * n >= 2 * n;
    assert q <= 0 ==> q * n <= 0;
  }

  /** How many steps from f to k, going forward round the widget list: between 1 and n. */
  function Distance(f: int, k: nat, n: nat): nat
    requires -1 <= f < n && k < n
  {
    if k > f then k - f else k - f + n
  }

  lemma DistanceReaches(f: int, k: nat, n: nat)
    requires -1 <= f < n && k < n
    ensures 1 <= Distance(f, k, n) <= n
    ensures Slot(f, Distance(f, k, n), n) == k
  {
  }

  /**
   * ct_focus_next visits every widget once, the focused one last: it finds
   * nothing exactly when no widget can take the focus, and what it finds
   * is the nearest focusable widget after f.
   */
  lemma FocusNextIsNearest(canFocus: seq<bool>, f: int)
    requires -1 <= f < |canFocus|
    ensures FocusStep(canFocus, f, 1).None? <==> forall k :: 0 <= k < |canFocus| ==> !canFocus[k]
    ensures FocusStep(canFocus, f, 1).Some? ==>
      var k := Slot(f, FocusStep(canFocus, f, 1).value, |canFocus|);
      canFocus[k] && forall j :: 0 <= j < |canFocus| && Distance(f, j, |canFocus|) < Distance(f, k, |canFocus|) ==> !canFocus[j]
  {
    var n := |canFocus|;
    var r := FocusStep(canFocus, f, 1);
    if r.None? {
      forall k | 0 <= k < n
        ensures !canFocus[k]
      {
        DistanceReaches(f, k, n);
      }
    } else {
      var k := Slot(f, r.value, n);
      assert Distance(f, k, n) == r.value;
      forall j | 0 <= j < n && Distance(f, j, n) < Distance(f, k, n)
        ensures !canFocus[j]
      {
        DistanceReaches(f, j, n);
      }
    }
  }

  /** The index of the first widget with the focus, or -1, as ct_focus_next finds it. */
  function FirstFocused(flags: seq<bool>, from: nat): (r: int)
    requires from <= |flags|
    ensures -1 <= r < |flags|
    ensures r >= 0 ==> from <= r && flags[r] && forall j :: from <= j < r ==> !flags[j]
    ensures r == -1 ==> forall j :: from <= j < |flags| ==> !flags[j]
    decreases |flags| - from
  {
    if from == |flags| then -1
    else if flags[from] then from
    else FirstFocused(flags, from + 1)
  }

  /** The widgets with their has_focus flags replaced by `flags`. */
  function WithFlags(ws: seq<Widget>, flags: seq<bool>): (r: seq<Widget>)
    requires |flags| == |ws|
    ensures |r| == |ws| && forall k :: 0 <= k < |ws| ==> r[k] == ws[k].(hasFocus := flags[k])
  {
    seq(|ws|, k requires 0 <= k < |ws| => ws[k].(hasFocus := flags[k]))
  }

  /** Whether ct_focus_widget gets past its guard for the widget at `target`. */
  predicate TakesFocus(ws: seq<Widget>, target: nat)
    requires target < |ws|
  {
    ws[target].canFocus && !ws[target].hasFocus
  }

  /** ct_focus_widget on the widget list. */
  function FocusApplied(ws: seq<Widget>, target: nat): seq<Widget>
    requires target < |ws|
  {
    if TakesFocus(ws, target) then WithFlags(ws, Refocused(FocusFlags(ws), target)) else ws
  }

  /**
   * ct_focus_widget touches has_focus flags only; past its guard, and with
   * at most one focused widget before, the target is the only focused
   * widget after.
   */
  lemma FocusAppliedIsOnlyFocus(ws: seq<Widget>, target: nat)
    requires target < |ws| && AtMostOne(FocusFlags(ws))
    ensures |FocusApplied(ws, target)| == |ws|
    ensures forall k :: 0 <= k < |ws| ==> FocusApplied(ws, target)[k] == ws[k].(hasFocus := FocusApplied(ws, target)[k].hasFocus)
    ensures !TakesFocus(ws, target) ==> FocusApplied(ws, target) == ws
    ensures TakesFocus(ws, target) ==> forall k :: 0 <= k < |ws| ==> (FocusApplied(ws, target)[k].hasFocus <==> k == target)
    ensures AtMostOne(FocusFlags(FocusApplied(ws, target)))
  {
    if TakesFocus(ws, target) {
      RefocusedIsOnlyFocus(FocusFlags(ws), target);
      var r := FocusApplied(ws, target);
      assert forall k :: 0 <= k < |ws| ==> FocusFlags(r)[k] == Refocused(FocusFlags(ws), target)[k];
    }
  }

  // ---------------------------------------------------------------------
  // Layout
  // ---------------------------------------------------------------------

  /** The number of Display widgets (mlw in ct_setup_widgets). */
  function DisplayCount(kinds: seq<WidgetType>): (r: nat)
    ensures r <= |kinds|
    ensures forall i :: 0 <= i < |kinds| && kinds[i] == Display ==> r > 0
  {
    if kinds == [] then 0
    else DisplayCount(kinds[..|kinds| - 1]) + (if kinds[|kinds| - 1] == Display then 1 else 0)
  }

  /** DisplayCountStep, stated for the prefix of length k. */
  lemma DisplayCountLast(kinds: seq<WidgetType>, k: nat)
    requires 0 < k <= |kinds|
    ensures DisplayCount(kinds[..k]) == DisplayCount(kinds[..k - 1]) + (if kinds[k - 1] == Display then 1 else 0)
  {
    DisplayCountStep(kinds, k - 1);
  }

  lemma DisplayCountStep(kinds: seq<WidgetType>, i: nat)
    requires i < |kinds|
    ensures DisplayCount(kinds[..i + 1]) == DisplayCount(kinds[..i]) + (if kinds[i] == Display then 1 else 0)
  {
    assert kinds[..i + 1][..i] == kinds[..i];
  }

  /** Title, Info and Prompt widgets take two rows each (tlw in ct_setup_widgets). */
  function TwoLineCount(kinds: seq<WidgetType>): nat
  {
    |kinds| - DisplayCount(kinds)
  }

  /** The condition under which ct_setup_widgets succeeds. */
  predicate LayoutFits(kinds: seq<WidgetType>, rows: nat)
  {
    rows >= 2 * TwoLineCount(kinds) + 3 * DisplayCount(kinds)
  }

  /** Rows left for the displays, and each display's share of them. */
  function DisplayRows(kinds: seq<WidgetType>, rows: nat): nat
    requires LayoutFits(kinds, rows)
  {
    rows - 2 * TwoLineCount(kinds)
  }

  lemma ShareBounds(avail: nat, mlw: nat)
    requires mlw > 0 && avail >= 3 * mlw
    ensures avail / mlw >= 3
    ensures (mlw - 1) * (avail / mlw) + avail / mlw <= avail
  {
    var q := avail / mlw;
    assert avail == mlw * q + avail % mlw;
    assert (mlw - 1) * q + q == mlw * q;
  }

  /**
   * The height ct_setup_widgets gives widget i: a display that is not the
   * last gets an equal share of the rows the two-line widgets leave, the
   * last display the remainder, and the other widgets keep theirs.
   */
  function LaidOutHeight(kinds: seq<WidgetType>, heights: seq<nat>, rows: nat, i: nat): nat
    requires |heights| == |kinds| && i < |kinds| && LayoutFits(kinds, rows)
  {
    if kinds[i] != Display then heights[i]
    else
      var mlw := DisplayCount(kinds);
      var avail := DisplayRows(kinds, rows);
      ShareBounds(avail, mlw);
      if DisplayCount(kinds[..i]) + 1 < mlw then avail / mlw
      else avail - (mlw - 1) * (avail / mlw)
  }

  function LaidOut(kinds: seq<WidgetType>, heights: seq<nat>, rows: nat): (r: seq<nat>)
    requires |heights| == |kinds| && LayoutFits(kinds, rows)
    ensures |r| == |kinds| && forall i :: 0 <= i < |kinds| ==> r[i] == LaidOutHeight(kinds, heights, rows, i)
  {
    seq(|kinds|, i requires 0 <= i < |kinds| => LaidOutHeight(kinds, heights, rows, i))
  }

  /** A display's share of the rows: the height of every display but the last. */
  function Share(kinds: seq<WidgetType>, rows: nat): nat
    requires LayoutFits(kinds, rows)
  {
    if DisplayCount(kinds) == 0 then 0 else DisplayRows(kinds, rows) / DisplayCount(kinds)
  }

  /**
   * The rows the first k widgets take once laid out: two per two-line
   * widget, a share per display, and all the display rows once the last
   * display is among them.
   */
  lemma LayoutPrefix(kinds: seq<WidgetType>, heights: seq<nat>, rows: nat, k: nat)
    requires |heights| == |kinds| && LayoutFits(kinds, rows) && k <= |kinds|
    requires forall i :: 0 <= i < |kinds| && kinds[i] != Display ==> heights[i] == 2
    ensures DisplayCount(kinds[..k]) <= DisplayCount(kinds)
    ensures DisplayCount(kinds[..k]) < DisplayCount(kinds) || DisplayCount(kinds) == 0 ==>
      Sum(LaidOut(kinds, heights, rows)[..k]) == 2 * (k - DisplayCount(kinds[..k])) + DisplayCount(kinds[..k]) * Share(kinds, rows)
    ensures DisplayCount(kinds[..k]) == DisplayCount(kinds) > 0 ==>
      Sum(LaidOut(kinds, heights, rows)[..k]) == 2 * (k - DisplayCount(kinds)) + DisplayRows(kinds, rows)
  {
    forall i | 0 <= i < |kinds|
      ensures ShapedHeight(kinds, LaidOut(kinds, heights, rows), i, DisplayCount(kinds), Share(kinds, rows), DisplayRows(kinds, rows))
    {
      LaidOutAt(kinds, heights, rows, i);
    }
    PrefixSum(kinds, LaidOut(kinds, heights, rows), k, DisplayCount(kinds), Share(kinds, rows), DisplayRows(kinds, rows));
  }

  /** Height i is two for a two-line widget, `q` for a display before the last, and the rest of `avail` for the last. */
  predicate ShapedHeight(kinds: seq<WidgetType>, hs: seq<nat>, i: nat, mlw: nat, q: nat, avail: int)
    requires i < |kinds| == |hs|
  {
    && (kinds[i] != Display ==> hs[i] == 2)
    && (kinds[i] == Display && DisplayCount(kinds[..i]) + 1 < mlw ==> hs[i] == q)
    && (kinds[i] == Display && DisplayCount(kinds[..i]) + 1 >= mlw ==> hs[i] == avail - (mlw - 1) * q)
  }

  /** The prefix sums of any heights shaped as ct_setup_widgets gives them. */
  lemma {:induction false} PrefixSum(kinds: seq<WidgetType>, hs: seq<nat>, k: nat, mlw: nat, q: nat, avail: int)
    requires |hs| == |kinds| && k <= |kinds| && mlw == DisplayCount(kinds)
    requires forall i :: 0 <= i < |kinds| ==> ShapedHeight(kinds, hs, i, mlw, q, avail)
    ensures DisplayCount(kinds[..k]) <= mlw
    ensures DisplayCount(kinds[..k]) < mlw || mlw == 0 ==>
      Sum(hs[..k]) == 2 * (k - DisplayCount(kinds[..k])) + DisplayCount(kinds[..k]) * q
    ensures DisplayCount(kinds[..k]) == mlw > 0 ==> Sum(hs[..k]) == 2 * (k - mlw) + avail
  {
    if k > 0 {
      PrefixSum(kinds, hs, k - 1, mlw, q, avail);
      PrefixSumStep(kinds, hs, k, mlw, q, avail);
    } else {
      assert kinds[..0] == [] && hs[..0] == [];
    }
  }

  /** One step of PrefixSum: from the first k - 1 heights to the first k. */
  lemma PrefixSumStep(kinds: seq<WidgetType>, hs: seq<nat>, k: nat, mlw: nat, q: nat, avail: int)
    requires |hs| == |kinds| && 0 < k <= |kinds| && mlw == DisplayCount(kinds)
    requires ShapedHeight(kinds, hs, k - 1, mlw, q, avail)
    requires DisplayCount(kinds[..k - 1]) < mlw || mlw == 0 ==>
      Sum(hs[..k - 1]) == 2 * (k - 1 - DisplayCount(kinds[..k - 1])) + DisplayCount(kinds[..k - 1]) * q
    requires DisplayCount(kinds[..k - 1]) == mlw > 0 ==> Sum(hs[..k - 1]) == 2 * (k - 1 - mlw) + avail
    ensures DisplayCount(kinds[..k]) <= mlw
    ensures DisplayCount(kinds[..k]) < mlw || mlw == 0 ==>
      Sum(hs[..k]) == 2 * (k - DisplayCount(kinds[..k])) + DisplayCount(kinds[..k]) * q
    ensures DisplayCount(kinds[..k]) == mlw > 0 ==> Sum(hs[..k]) == 2 * (k - mlw) + avail
  {
    DisplayCountPrefix(kinds, k);
    SumLast(hs, k);
    DisplayCountLast(kinds, k);
    PrefixArith(Sum(hs[..k - 1]), hs[k - 1], k, DisplayCount(kinds[..k - 1]), DisplayCount(kinds[..k]),
                mlw, q, avail, kinds[k - 1] == Display);
  }

  /** The height of widget i in terms of its kind and the displays before it. */
  lemma LaidOutAt(kinds: seq<WidgetType>, heights: seq<nat>, rows: nat, i: nat)
    requires |heights| == |kinds| && LayoutFits(kinds, rows) && i < |kinds|
    requires kinds[i] != Display ==> heights[i] == 2
    ensures var h := LaidOut(kinds, heights, rows)[i];
      var d := DisplayCount(kinds[..i]);
      var mlw := DisplayCount(kinds);
      && (kinds[i] != Display ==> h == 2)
      && (kinds[i] == Display && d + 1 < mlw ==> h == Share(kinds, rows))
      && (kinds[i] == Display && d + 1 >= mlw ==> h == DisplayRows(kinds, rows) - (mlw - 1) * Share(kinds, rows))
  {
    var h := LaidOut(kinds, heights, rows)[i];
    assert h == LaidOutHeight(kinds, heights, rows, i);
    if kinds[i] == Display {
      var mlw: int := DisplayCount(kinds);
      var avail: int := DisplayRows(kinds, rows);
      assert mlw > 0;
      var q: int := avail / mlw;
      assert Share(kinds, rows) == q;
      if DisplayCount(kinds[..i]) + 1 < mlw {
        assert h == q;
      } else {
        assert h == avail - (mlw - 1) * q;
      }
    }
  }

  /** The arithmetic of one step of PrefixSum: the prefix sum grows by the next widget's height. */
  lemma PrefixArith(s: int, h: int, k: int, d: int, d2: int, mlw: int, q: int, avail: int, display: bool)
    requires k >= 1 && 0 <= d && d2 == d + (if display then 1 else 0) && d2 <= mlw
    requires d < mlw || mlw == 0 ==> s == 2 * (k - 1 - d) + d * q
    requires d == mlw > 0 ==> s == 2 * (k - 1 - mlw) + avail
    requires !display ==> h == 2
    requires display && d + 1 < mlw ==> h == q
    requires display && d + 1 >= mlw ==> h == avail - (mlw - 1) * q
    ensures d2 < mlw || mlw == 0 ==> s + h == 2 * (k - d2) + d2 * q
    ensures d2 == mlw > 0 ==> s + h == 2 * (k - mlw) + avail
  {
    MulSucc(d, q);
    if display && d + 1 == mlw {
      LastShareStep(s, k, d, q, avail, mlw);
    }
  }

  lemma LastShareStep(s: int, k: int, d: int, q: int, avail: int, mlw: int)
    requires s == 2 * (k - 1 - d) + d * q && d + 1 == mlw
    ensures s + (avail - (mlw - 1) * q) == 2 * (k - mlw) + avail
  {
  }

  lemma MulSucc(d: int, q: int)
    ensures (d + 1) * q == d * q + q
  {
  }

  /**
   * ct_setup_widgets fills the screen exactly when there is a display (the
   * last display takes the remainder) and otherwise leaves the two rows of
   * each widget.
   */
  lemma LayoutFillsScreen(kinds: seq<WidgetType>, heights: seq<nat>, rows: nat)
    requires |heights| == |kinds| && LayoutFits(kinds, rows)
    requires forall i :: 0 <= i < |kinds| && kinds[i] != Display ==> heights[i] == 2
    ensures DisplayCount(kinds) > 0 ==> Sum(LaidOut(kinds, heights, rows)) == rows
    ensures DisplayCount(kinds) == 0 ==> Sum(LaidOut(kinds, heights, rows)) == 2 * |kinds| <= rows
  {
    LayoutPrefix(kinds, heights, rows, |kinds|);
    assert kinds[..|kinds|] == kinds;
    assert LaidOut(kinds, heights, rows)[..|kinds|] == LaidOut(kinds, heights, rows);
  }

  /** Two-line widgets keep their rows, and every display gets at least three. */
  lemma LayoutHeights(kinds: seq<WidgetType>, heights: seq<nat>, rows: nat)
    requires |heights| == |kinds| && LayoutFits(kinds, rows)
    ensures forall i :: 0 <= i < |kinds| && kinds[i] != Display ==> LaidOut(kinds, heights, rows)[i] == heights[i]
    ensures forall i :: 0 <= i < |kinds| && kinds[i] == Display ==> LaidOut(kinds, heights, rows)[i] >= 3
  {
    var mlw := DisplayCount(kinds);
    if mlw > 0 {
      ShareBounds(DisplayRows(kinds, rows), mlw);
    }
  }

  /** A sum of row counts never shrinks as the prefix grows. */
  lemma {:induction false} SumPrefix(s: seq<nat>, i: nat)
    requires i <= |s|
    ensures Sum(s[..i]) <= Sum(s)
    decreases |s| - i
  {
    if i < |s| {
      SumPrefix(s, i + 1);
      SumStep(s, i);
    } else {
      assert s[..i] == s;
    }
  }

  /**
   * The widgets as ct_setup_widgets leaves them: each one's laid-out
   * height, the screen's width, and an origin row one below the rows of
   * the widgets before it (in size_t arithmetic).
   */
  function Arranged(ws: seq<Widget>, rows: nat, cols: SizeT): (r: seq<Widget>)
    requires LayoutFits(Kinds(ws), rows)
    ensures |r| == |ws|
  {
    var hs := LaidOut(Kinds(ws), Heights(ws), rows);
    seq(|ws|, k requires 0 <= k < |ws| =>
      ws[k].(originRow := Wrap(1 + Sum(hs[..k])), height := Wrap(hs[k]), width := cols))
  }

  /** Widget k once arranged: its laid-out height, and the rows above it as its origin, with no wrap-around. */
  lemma ArrangedAt(ws: seq<Widget>, rows: nat, cols: SizeT, k: nat)
    requires LayoutFits(Kinds(ws), rows) && rows <= 0xFFFF && k < |ws|
    requires forall i :: 0 <= i < |ws| && ws[i].kind != Display ==> ws[i].height == 2
    ensures var hs := LaidOut(Kinds(ws), Heights(ws), rows); var r := Arranged(ws, rows, cols)[k];
      r.originRow == 1 + Sum(hs[..k]) && r.height == hs[k] && Sum(hs[..k]) + hs[k] <= rows
    ensures var r := Arranged(ws, rows, cols)[k]; r == ws[k].(originRow := r.originRow, height := r.height, width := cols)
  {
    var hs := LaidOut(Kinds(ws), Heights(ws), rows);
    LayoutFillsScreen(Kinds(ws), Heights(ws), rows);
    assert Sum(hs) <= rows;
    SumPrefix(hs, k + 1);
    SumStep(hs, k);
    assert Sum(hs[..k]) + hs[k] <= rows;
    WrapSmall(1 + Sum(hs[..k]));
    WrapSmall(hs[k]);
  }

  lemma WrapSmall(x: nat)
    requires x <= 0x1_0000
    ensures Wrap(x) == x
  {
  }

  /**
   * After ct_setup_widgets the widgets are stacked from row 1 without gaps
   * or overlaps and span the screen's width; nothing but the frame changes.
   */
  lemma ArrangedStacks(ws: seq<Widget>, rows: nat, cols: SizeT)
    requires LayoutFits(Kinds(ws), rows) && rows <= 0xFFFF
    requires forall i :: 0 <= i < |ws| && ws[i].kind != Display ==> ws[i].height == 2
    ensures var r := Arranged(ws, rows, cols);
      && (|ws| > 0 ==> r[0].originRow == 1)
      && (forall k :: 0 <= k < |ws| - 1 ==> r[k + 1].originRow == r[k].originRow + r[k].height)
      && (forall k :: 0 <= k < |ws| ==> r[k] == ws[k].(originRow := r[k].originRow, height := r[k].height, width := cols))
  {
    var r := Arranged(ws, rows, cols);
    var hs := LaidOut(Kinds(ws), Heights(ws), rows);
    if |ws| > 0 {
      ArrangedAt(ws, rows, cols, 0);
    }
    forall k | 0 <= k < |ws| - 1
      ensures r[k + 1].originRow == r[k].originRow + r[k].height
    {
      ArrangedAt(ws, rows, cols, k);
      ArrangedAt(ws, rows, cols, k + 1);
      SumStep(hs, k);
    }
    forall k | 0 <= k < |ws|
      ensures r[k] == ws[k].(originRow := r[k].originRow, height := r[k].height, width := cols)
    {
      ArrangedAt(ws, rows, cols, k);
    }
  }

  /**
   * After ct_setup_widgets each two-line widget keeps two rows, each
   * display has at least three, and the widgets fill the screen exactly
   * when there is a display.
   */
  lemma ArrangedFills(ws: seq<Widget>, rows: nat, cols: SizeT)
    requires LayoutFits(Kinds(ws), rows) && rows <= 0xFFFF
    requires forall i :: 0 <= i < |ws| && ws[i].kind != Display ==> ws[i].height == 2
    ensures var r := Arranged(ws, rows, cols);
      && (forall k :: 0 <= k < |ws| && ws[k].kind != Display ==> r[k].height == 2)
      && (forall k :: 0 <= k < |ws| && ws[k].kind == Display ==> r[k].height >= 3)
      && (DisplayCount(Kinds(ws)) > 0 ==> Sum(Heights(r)) == rows)
      && (DisplayCount(Kinds(ws)) == 0 ==> Sum(Heights(r)) == 2 * |ws| <= rows)
  {
    var r := Arranged(ws, rows, cols);
    var hs := LaidOut(Kinds(ws), Heights(ws), rows);
    LayoutFillsScreen(Kinds(ws), Heights(ws), rows);
    LayoutHeights(Kinds(ws), Heights(ws), rows);
    forall k | 0 <= k < |ws|
      ensures r[k].height == hs[k]
    {
      ArrangedAt(ws, rows, cols, k);
    }
    assert Heights(r) == hs;
  }

  /** The displays among the first k widgets and among the rest make up all of them. */
  lemma DisplayCountPrefix(kinds: seq<WidgetType>, k: nat)
    requires k <= |kinds|
    ensures DisplayCount(kinds[..k]) + DisplayCount(kinds[k..]) == DisplayCount(kinds)
  {
    assert kinds[..k] + kinds[k..] == kinds;
    DisplayCountSplit(kinds[..k], kinds[k..]);
  }

  lemma {:induction false} DisplayCountSplit(a: seq<WidgetType>, b: seq<WidgetType>)
    ensures DisplayCount(a + b) == DisplayCount(a) + DisplayCount(b)
    decreases |b|
  {
    if b != [] {
      var b' := b[..|b| - 1];
      assert (a + b)[..|a + b| - 1] == a + b';
      DisplayCountSplit(a, b');
    } else {
      assert a + b == a;
    }
  }


  // ---------------------------------------------------------------------
  // Prompt motions
  // ---------------------------------------------------------------------

  /** The columns _ct_vm_h keeps clear before it scrolls back: PROMPT_PAD + 1 + 3. */
  const LeftScrollPad: nat := PromptPad + 1 + 3

  /**
   * _ct_vm_l on a prompt over `size` tokens: the cursor moves one token
   * right, and the view scrolls by one when the cursor passes the frame
   * (all in size_t arithmetic).
   */
  function StepRight(w: Widget, size: nat): (r: Widget)
    ensures r == w.(dataIndex := r.dataIndex, index := r.index)
  {
    if w.dataIndex < size then
      var di := Wrap(w.dataIndex + 1);
      w.(dataIndex := di,
         index := if USub(di, w.index) > USub(USub(w.width, PromptPad), 1) then Wrap(w.index + 1) else w.index)
    else w
  }

  /** _ct_vm_h on a prompt: the cursor moves one token left, and the view scrolls back near its start. */
  function StepLeft(w: Widget): (r: Widget)
    ensures r == w.(dataIndex := r.dataIndex, index := r.index)
  {
    if w.dataIndex > 0 then
      var di := w.dataIndex - 1;
      w.(dataIndex := di,
         index := if w.index > 0 && Wrap(di + LeftScrollPad) < Wrap(w.width + w.index) then w.index - 1 else w.index)
    else w
  }

  /**
   * 'l' and 'h' keep the cursor within the data: 'l' advances it exactly
   * when it is before the end, 'h' moves it back exactly when it is past
   * the start, and 'h' undoes the cursor move of a successful 'l'.
   */
  lemma CursorStepsStayInData(w: Widget, size: nat)
    requires w.dataIndex <= size < SizeModulus
    ensures StepRight(w, size).dataIndex == if w.dataIndex < size then w.dataIndex + 1 else w.dataIndex
    ensures StepRight(w, size).dataIndex <= size
    ensures StepLeft(w).dataIndex == if w.dataIndex > 0 then w.dataIndex - 1 else 0
    ensures w.dataIndex < size ==> StepLeft(StepRight(w, size)).dataIndex == w.dataIndex
  {
  }

  /** Where one 'l' and one 'h' put the cursor inside data of `size` tokens. */
  lemma StepIndices(w: Widget, size: nat)
    requires w.dataIndex <= size < SizeModulus
    ensures StepRight(w, size).dataIndex == if w.dataIndex < size then w.dataIndex + 1 else w.dataIndex
    ensures StepLeft(w).dataIndex == if w.dataIndex > 0 then w.dataIndex - 1 else 0
  {
    CursorStepsStayInData(w, size);
  }

  /** Whether the token at `i` is a blank (C_SPC); there is none past the data. */
  predicate SpaceAt(c: seq<Token>, i: nat)
  {
    i < |c| && c[i].value == Space
  }

  /** Repeated 'l' while the cursor is inside the data on a token whose blankness is `space`. */
  function SkipRight(w: Widget, c: seq<Token>, space: bool): (r: Widget)
    requires w.dataIndex <= |c| < SizeModulus
    ensures w.dataIndex <= r.dataIndex <= |c|
    ensures r.dataIndex == |c| || SpaceAt(c, r.dataIndex) != space
    ensures forall j :: w.dataIndex <= j < r.dataIndex ==> SpaceAt(c, j) == space
    ensures r == w.(dataIndex := r.dataIndex, index := r.index)
    decreases |c| - w.dataIndex
  {
    if w.dataIndex < |c| && SpaceAt(c, w.dataIndex) == space then SkipRight(StepRight(w, |c|), c, space) else w
  }

  /** Repeated 'h' while the cursor is past the start on a token whose blankness is `space`. */
  function SkipLeft(w: Widget, c: seq<Token>, space: bool): (r: Widget)
    requires w.dataIndex <= |c|
    ensures r.dataIndex <= w.dataIndex
    ensures r.dataIndex == 0 || SpaceAt(c, r.dataIndex) != space
    ensures forall j :: r.dataIndex < j <= w.dataIndex ==> SpaceAt(c, j) == space
    ensures r == w.(dataIndex := r.dataIndex, index := r.index)
    decreases w.dataIndex
  {
    if w.dataIndex > 0 && SpaceAt(c, w.dataIndex) == space then SkipLeft(StepLeft(w), c, space) else w
  }

  /**
   * _ct_vm_e: one 'l' when there is room, then past the blanks, then past
   * the word, then one 'h'.
   */
  function EndOfWord(w: Widget, c: seq<Token>): (r: Widget)
    requires w.dataIndex <= |c| < SizeModulus
  {
    var w1 := StepRight(w, |c|);
    StepLeft(SkipRight(SkipRight(w1, c, true), c, false))
  }

  /** The last token of a word: not a blank, and followed by a blank or the end. */
  predicate WordEndAt(c: seq<Token>, j: nat)
  {
    j < |c| && !SpaceAt(c, j) && (j + 1 == |c| || SpaceAt(c, j + 1))
  }

  /**
   * 'e' moves the cursor to the end of the first word that ends after it,
   * skipping no word end on the way; with no word ahead it lands on the
   * last token.
   */
  lemma {:induction false} WordEndLands(w: Widget, c: seq<Token>)
    requires w.dataIndex <= |c| < SizeModulus
    ensures var e := EndOfWord(w, c).dataIndex;
      && e <= |c|
      && ((exists j :: w.dataIndex < j < |c| && !SpaceAt(c, j)) ==>
            w.dataIndex < e && WordEndAt(c, e) && forall j :: w.dataIndex < j < e ==> !WordEndAt(c, j))
      && (!(exists j :: w.dataIndex < j < |c| && !SpaceAt(c, j)) && |c| > 0 ==> e == |c| - 1)
    ensures EndOfWord(w, c) == w.(dataIndex := EndOfWord(w, c).dataIndex, index := EndOfWord(w, c).index)
  {
    var w1 := StepRight(w, |c|);
    var w2 := SkipRight(w1, c, true);
    var w3 := SkipRight(w2, c, false);
    StepIndices(w, |c|);
    StepIndices(w3, |c|);
    assert EndOfWord(w, c) == StepLeft(w3);
    WordEndOfRuns(c, w.dataIndex, w2.dataIndex, w3.dataIndex);
  }

  /**
   * The positions behind WordEndLands: from `d`, one step right, a run of
   * blanks up to `a`, a run of non-blanks up to `b`, then one step back.
   */
  lemma WordEndOfRuns(c: seq<Token>, d: nat, a: nat, b: nat)
    requires d <= |c| && (if d < |c| then d + 1 else d) <= a <= b <= |c|
    requires forall j :: (if d < |c| then d + 1 else d) <= j < a ==> SpaceAt(c, j)
    requires a == |c| || !SpaceAt(c, a)
    requires forall j :: a <= j < b ==> !SpaceAt(c, j)
    requires b == |c| || SpaceAt(c, b)
    ensures var e := if b > 0 then b - 1 else 0;
      && e <= |c|
      && ((exists j :: d < j < |c| && !SpaceAt(c, j)) ==>
            d < e && WordEndAt(c, e) && forall j :: d < j < e ==> !WordEndAt(c, j))
      && (!(exists j :: d < j < |c| && !SpaceAt(c, j)) && |c| > 0 ==> e == |c| - 1)
  {
    if exists j :: d < j < |c| && !SpaceAt(c, j) {
      var j :| d < j < |c| && !SpaceAt(c, j);
      assert a <= j;
      assert a < |c| && a < b;
      var e := b - 1;
      assert !SpaceAt(c, e);
      forall k | d < k < e
        ensures !WordEndAt(c, k)
      {
        if k < a {
          assert SpaceAt(c, k);
        } else {
          assert !SpaceAt(c, k + 1);
        }
      }
    } else if |c| > 0 {
      assert a < |c| ==> d < a && !SpaceAt(c, a);
    }
  }

  /** _ct_vm_b: one 'h' when possible, then back over the blanks, then over the word, then one 'l' unless at 0. */
  function StartOfWord(w: Widget, c: seq<Token>): (r: Widget)
    requires w.dataIndex <= |c| < SizeModulus
  {
    var w1 := StepLeft(w);
    var w2 := SkipLeft(SkipLeft(w1, c, true), c, false);
    if w2.dataIndex > 0 then StepRight(w2, |c|) else w2
  }

  /** The first token of a word: not a blank, and preceded by a blank. */
  predicate WordStartAt(c: seq<Token>, j: nat)
  {
    0 < j < |c| && !SpaceAt(c, j) && SpaceAt(c, j - 1)
  }

  /**
   * 'b' moves the cursor back, to the start of the nearest word that
   * starts before it, skipping no word start on the way, or to 0.
   */
  lemma {:induction false} WordBackLands(w: Widget, c: seq<Token>)
    requires w.dataIndex <= |c| < SizeModulus
    ensures var b := StartOfWord(w, c).dataIndex;
      && b <= w.dataIndex
      && (w.dataIndex > 0 ==> b < w.dataIndex)
      && (b > 0 ==> WordStartAt(c, b) && forall j :: b < j < w.dataIndex ==> !WordStartAt(c, j))
    ensures StartOfWord(w, c) == w.(dataIndex := StartOfWord(w, c).dataIndex, index := StartOfWord(w, c).index)
  {
    CursorStepsStayInData(w, |c|);
    var w1 := StepLeft(w);
    var w2 := SkipLeft(w1, c, true);
    var w3 := SkipLeft(w2, c, false);
    CursorStepsStayInData(w3, |c|);
    if w3.dataIndex > 0 {
      assert SpaceAt(c, w3.dataIndex);
      assert w3.dataIndex < w2.dataIndex;
      assert !SpaceAt(c, w3.dataIndex + 1);
    }
  }

  /** A buffer whose first token is a blank: 'b' from the end overshoots the word start at 1 and lands on 0. */
  lemma WordBackLeadingBlank(w: Widget, blank: Token, a: Token)
    requires blank.value == Space && a.value != Space && w.dataIndex == 2
    ensures StartOfWord(w, [blank, a]).dataIndex == 0
    ensures WordStartAt([blank, a], 1)
  {
    var c := [blank, a];
    assert SpaceAt(c, 0) && !SpaceAt(c, 1);
  }

  /** cb_data_width from `start` to the end of the data; 0 from a start past the end. */
  function TailWidth(c: seq<Token>, start: nat): nat
  {
    if start < |c| then WidthSum(c[start..]) else 0
  }

  /**
   * The index loop of _ct_vm_$: from `j`, the first index whose tail,
   * after the prompt symbol and the last token's width, fits the frame.
   * Past the data the tail is empty, so the loop stops once the prompt
   * symbol and the last token fit.
   */
  function FitFrom(c: seq<Token>, lastWidth: nat, width: nat, j: nat): (r: nat)
    requires PromptPad + lastWidth <= width
    ensures j <= r && PromptPad + lastWidth + TailWidth(c, r) <= width
    ensures forall m :: j <= m < r ==> PromptPad + lastWidth + TailWidth(c, m) > width
    ensures j <= |c| ==> r <= |c|
    decreases |c| - j
  {
    if PromptPad + lastWidth + TailWidth(c, j) > width then FitFrom(c, lastWidth, width, j + 1) else j
  }

  /**
   * _ct_vm_$ on a prompt: the cursor goes past the last token and the
   * view scrolls forward until the tail fits the frame.
   */
  function EndOfLine(w: Widget, c: seq<Token>): (r: Widget)
    requires 0 < |c| < SizeModulus && PromptPad + c[|c| - 1].width <= w.width
    ensures r.dataIndex == |c| && w.index <= r.index && (w.index <= |c| ==> r.index <= |c|)
    ensures PromptPad + c[|c| - 1].width + TailWidth(c, r.index) <= r.width
    ensures forall m :: w.index <= m < r.index ==> PromptPad + c[|c| - 1].width + TailWidth(c, m) > w.width
    ensures r == w.(dataIndex := r.dataIndex, index := r.index)
  {
    w.(dataIndex := |c|, index := FitFrom(c, c[|c| - 1].width, w.width, w.index))
  }

  /** _ct_vm_0 on a prompt: cursor and view back to the start. */
  function StartOfLine(w: Widget): (r: Widget)
    ensures r.dataIndex == 0 && r.index == 0
    ensures r == w.(dataIndex := 0, index := 0)
  {
    w.(dataIndex := 0, index := 0)
  }

  /** _ct_vm_a: the cursor steps past the token under it, without scrolling. */
  function AppendStep(w: Widget, size: nat): (r: Widget)
    requires w.dataIndex <= size < SizeModulus
    ensures r.dataIndex == (if w.dataIndex < size then w.dataIndex + 1 else w.dataIndex) <= size
    ensures r == w.(dataIndex := r.dataIndex)
  {
    if w.dataIndex < size then w.(dataIndex := w.dataIndex + 1) else w
  }

  /** The part of cb_data_width that _ct_insert_token reads: `count` tokens from `start`, clamped to the data. */
  function WindowWidth(c: seq<Token>, start: nat, count: nat): nat
  {
    if start < |c| then WidthSum(c[start..start + Clamped(|c|, start, count)]) else 0
  }

  /**
   * _ct_insert_token after a successful cb_insert, with `c` the tokens
   * after the insertion and `firstWidth` the width of the token in slot
   * `index` of the buffer's array: the cursor moves past the new token,
   * and when the visible text no longer fits the view scrolls by one
   * token, or by the new token's width when the first visible token is
   * narrower or wider.
   */
  function AfterInsert(w: Widget, t: Token, c: seq<Token>, firstWidth: nat): (r: Widget)
  {
    var di := Wrap(w.dataIndex + 1);
    InsertScroll(w, t, WindowWidth(c, w.index, Wrap(USub(di, w.index) + 1)), firstWidth)
  }

  /**
   * The decision _ct_insert_token takes once it has measured `width`, the
   * visible tokens up to the cursor: the cursor steps past the new token,
   * and the view scrolls when they no longer fit after the prompt symbol.
   */
  function InsertScroll(w: Widget, t: Token, width: nat, firstWidth: nat): (r: Widget)
  {
    var di := Wrap(w.dataIndex + 1);
    if width + PromptPad + t.width > w.width then
      w.(dataIndex := di, index := if firstWidth == t.width then Wrap(w.index + 1) else Wrap(w.index + t.width))
    else w.(dataIndex := di)
  }

  /**
   * Typing into a prompt below its maximum: the token lands under the
   * cursor, the cursor moves past it, the cursor stays within the data,
   * and a backspace then gives the old tokens back.
   */
  lemma TypeThenBackspace(w: Widget, sh: Shape, t: Token, firstWidth: nat)
    requires ShapeOk(sh) && w.dataIndex <= |sh.tokens| < sh.maxCapacity < SizeModulus - 1
    ensures var c := Inserted(sh, t, w.dataIndex).tokens; var r := AfterInsert(w, t, c, firstWidth);
      && r.dataIndex == w.dataIndex + 1 <= |c| == |sh.tokens| + 1
      && c[w.dataIndex] == t
      && Removed(c, r.dataIndex - 1) == sh.tokens
  {
    InsertThenRemove(sh, t, w.dataIndex);
  }

  // ---------------------------------------------------------------------
  // Display motions
  // ---------------------------------------------------------------------

  /** _ct_vm_0 on a display: show the last `height` rows, if there are more than that. */
  function DisplayLastRows(w: Widget): (r: Widget)
    ensures r == w.(index := r.index)
    ensures w.dataIndex > w.height ==> r.index + w.height == w.dataIndex
    ensures w.dataIndex <= w.height ==> r == w
  {
    if w.dataIndex > w.height then w.(index := w.dataIndex - w.height) else w
  }

  /** Whether _ct_vm_j moves a display: rows remain below the view. */
  predicate CanScrollDown(w: Widget)
  {
    Wrap(w.index + w.height) < w.dataIndex
  }

  /** _ct_vm_j on a display: one row down. */
  function ScrolledDown(w: Widget): (r: Widget)
    requires CanScrollDown(w)
    ensures r == w.(index := r.index)
  {
    w.(index := Wrap(w.index + 1))
  }

  /** _ct_vm_k on a display: one row up. */
  function ScrolledUp(w: Widget): (r: Widget)
    requires w.index > 0
    ensures r == w.(index := w.index - 1)
  {
    w.(index := w.index - 1)
  }

  /**
   * 'j' moves the view one row down while rows remain below it, never
   * past the last row, and 'k' undoes it.
   */
  lemma ScrollDownThenUp(w: Widget)
    requires CanScrollDown(w) && w.index + w.height < SizeModulus
    ensures ScrolledDown(w).index == w.index + 1
    ensures ScrolledDown(w).index + w.height <= w.dataIndex
    ensures ScrolledUp(ScrolledDown(w)) == w
  {
  }

  /** _ct_page_dn on a display, in size_t arithmetic. */
  function PagedDown(w: Widget): (r: Widget)
    ensures r == w.(index := r.index)
  {
    if Wrap(w.index + Wrap(2 * USub(w.height, 2))) < w.dataIndex then w.(index := Wrap(w.index + USub(w.height, 2)))
    else if Wrap(w.index + Wrap(2 * w.height)) > w.dataIndex then w.(index := USub(w.dataIndex, w.height))
    else w
  }

  /** _ct_page_up on a display, in size_t arithmetic. */
  function PagedUp(w: Widget): (r: Widget)
    ensures r == w.(index := r.index)
  {
    if w.index > w.height then w.(index := USub(w.index, USub(w.height, 2))) else w.(index := 0)
  }

  /**
   * On a display of at least two rows, page-up moves the view back by
   * height - 2 rows, or to the top when it is within a page of it; it
   * never moves forward.
   */
  lemma PageUpMovesBack(w: Widget)
    requires w.height >= 2
    ensures PagedUp(w).index <= w.index
    ensures w.index > w.height ==> PagedUp(w).index == w.index - (w.height - 2)
    ensures w.index <= w.height ==> PagedUp(w).index == 0
  {
  }

  /**
   * On a display of at least two rows with more than two pages below the
   * view, page-down moves it forward by height - 2 rows and keeps it
   * inside the data; near the end it shows the last `height` rows.
   */
  lemma PageDownMovesForward(w: Widget)
    requires w.height >= 2 && w.index + 2 * w.height < SizeModulus
    ensures w.index + 2 * (w.height - 2) < w.dataIndex ==>
      PagedDown(w).index == w.index + (w.height - 2) && PagedDown(w).index < w.dataIndex
    ensures !(w.index + 2 * (w.height - 2) < w.dataIndex) && w.index + 2 * w.height > w.dataIndex >= w.height ==>
      PagedDown(w).index + w.height == w.dataIndex
  {
  }

  /**
   * Page-down near the end of a display holding fewer rows than its
   * height: the subtraction wraps and the first visible row becomes
   * 2^64 - 2.
   */
  lemma PageDownShortDisplay(w: Widget)
    requires w.index == 0 && w.height == 5 && w.dataIndex == 3
    ensures PagedDown(w).index == SizeModulus - 2
  {
  }

  // ---------------------------------------------------------------------
  // Key routing
  // ---------------------------------------------------------------------

  /** What ct_get_user_input does with a token once read. */
  datatype Action = Submit | Type(token: Token) | Run(command: Command) | NoAction

  /**
   * The routing of ct_get_user_input: in Insert mode with a prompt
   * focused, Enter/Return submits, printable ASCII and UTF-8 tokens are
   * typed; every other key runs the first command-map entry for its value.
   */
  function Route(mode: Mode, promptFocused: bool, t: Token): (a: Action)
    ensures a.Submit? ==> mode == InsertMode && promptFocused
    ensures a.Type? ==> mode == InsertMode && promptFocused && (a.token == t || a.token == ParseValue(t.value))
    ensures a.Run? ==> Lookup(t.value, 0) == Some(a.command)
  {
    var typing := mode == InsertMode && promptFocused;
    if typing && (t.value == Enter || t.value == Return) then Submit
    else if typing && Space <= t.value <= Tilde then Type(ParseValue(t.value))
    else if typing && t.kind == Utf8 then Type(t)
    else match Lookup(t.value, 0)
      case Some(c) => Run(c)
      case None => NoAction
  }

  /** The value ct_get_user_input returns: C_ENT for either line end at a prompt, else the token's value. */
  function Returned(a: Action, t: Token): (r: int)
    ensures a.Submit? ==> r == Enter
    ensures !a.Submit? ==> r == t.value
  {
    if a.Submit? then Enter else t.value
  }

  /**
   * In Insert mode at a prompt every printable key types itself, so the
   * letter commands ('h', 'j', 'x', ...) are text there; in Command mode,
   * or away from a prompt, every key runs exactly what the command map
   * pairs it with.
   */
  lemma RouteTypesOrRuns(mode: Mode, promptFocused: bool, t: Token, c: Command)
    ensures mode == InsertMode && promptFocused && Space <= t.value <= Tilde ==>
      Route(mode, promptFocused, t) == Type(ParseValue(t.value))
    ensures !(mode == InsertMode && promptFocused) ==>
      (Route(mode, promptFocused, t) == Run(c) <==> (t.value, c) in CommandMap)
    ensures mode == InsertMode && promptFocused && t.value == Backspace && t.kind != Utf8 ==>
      Route(mode, promptFocused, t) == Run(DeleteChar)
  {
    LookupIffEntry(t.value, c);
    LookupIffEntry(Backspace as int, DeleteChar);
    assert (Backspace as int, DeleteChar) == CommandMap[0];
  }
}
