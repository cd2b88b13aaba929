/**
 * The terminal of src/lib/cnc_terminal.c without its I/O: the widget
 * list, the focus, the Command/Insert mode, the row layout, the vi-like
 * motions and the key dispatch of ct_get_user_input once a token has been
 * read.  Each operation is proved against the value-level rules of
 * TerminalRules.
 */
module Terminal {
  import opened Basics
  import opened TermToken
  import opened TokenBuffer
  import opened Widget
  import opened Keys
  import opened TerminalRules

  /** scr_rows and scr_cols come from the unsigned short fields of a winsize. */
  const MaxScreen: nat := 0xFFFF

  /** widgets_count is a uint8_t. */
  const MaxWidgets: nat := 255

  function Buffers(ws: seq<Widget>): set<Buffer>
  {
    set i | 0 <= i < |ws| :: ws[i].buffer
  }

  predicate DistinctBuffers(ws: seq<Widget>)
  {
    forall i, j :: 0 <= i < |ws| && 0 <= j < |ws| && i != j ==> ws[i].buffer != ws[j].buffer
  }

  /** A widget's buffer is usable exactly when it is not a title's, and then has the kind's maximum. */
  ghost predicate BufferOk(w: Widget)
    reads w.buffer
  {
    w.buffer.Valid() && (w.buffer.live <==> w.kind != Title) && (w.buffer.live ==> w.buffer.maxCapacity == BufferSize(w.kind))
  }

  /**
   * focused_widget agrees with the has_focus flags: at most one flag is
   * set, and focused_widget points at the flagged widget, or is NULL when
   * none is flagged.
   */
  predicate FocusOk(flags: seq<bool>, focused: Option<nat>)
  {
    && AtMostOne(flags)
    && (focused.None? <==> forall i :: 0 <= i < |flags| ==> !flags[i])
    && (focused.Some? ==> focused.value < |flags| && flags[focused.value])
  }

  predicate IsDisplay(ws: seq<Widget>, i: Option<nat>)
  {
    i.Some? && i.value < |ws| && ws[i.value].kind == Display
  }

  predicate IsPrompt(ws: seq<Widget>, i: Option<nat>)
  {
    i.Some? && i.value < |ws| && ws[i.value].kind == Prompt
  }

  /** The display _ct_vm_j scrolls: the focused one if it can, else the main display if it can. */
  function ScrollDownTarget(ws: seq<Widget>, focused: Option<nat>, main: Option<nat>): (r: Option<nat>)
    ensures r.Some? ==> IsDisplay(ws, r) && CanScrollDown(ws[r.value]) && (r == focused || r == main)
    ensures IsDisplay(ws, focused) && CanScrollDown(ws[focused.value]) ==> r == focused
    ensures r.None? ==> !(IsDisplay(ws, main) && CanScrollDown(ws[main.value]))
  {
    if IsDisplay(ws, focused) && CanScrollDown(ws[focused.value]) then focused
    else if IsDisplay(ws, main) && CanScrollDown(ws[main.value]) then main
    else None
  }

  /** The display _ct_vm_k scrolls: the focused one if it is not at the top, else the main display. */
  function ScrollUpTarget(ws: seq<Widget>, focused: Option<nat>, main: Option<nat>): (r: Option<nat>)
    ensures r.Some? ==> IsDisplay(ws, r) && ws[r.value].index > 0 && (r == focused || r == main)
    ensures IsDisplay(ws, focused) && ws[focused.value].index > 0 ==> r == focused
    ensures r.None? ==> !(IsDisplay(ws, main) && ws[main.value].index > 0)
  {
    if IsDisplay(ws, focused) && ws[focused.value].index > 0 then focused
    else if IsDisplay(ws, main) && ws[main.value].index > 0 then main
    else None
  }

  /** The display the page keys act on: the focused one, else the main display. */
  function PageTarget(ws: seq<Widget>, focused: Option<nat>, main: Option<nat>): (r: Option<nat>)
    ensures r.Some? ==> IsDisplay(ws, r)
    ensures IsDisplay(ws, focused) ==> r == focused
    ensures !IsDisplay(ws, focused) ==> r == (if IsDisplay(ws, main) then main else None)
  {
    if IsDisplay(ws, focused) then focused
    else if IsDisplay(ws, main) then main
    else None
  }

  /** The width of slot `i` of a buffer's array, or 0 past it. */
  function SlotWidth(slots: seq<Token>, i: nat): nat
  {
    if i < |slots| then slots[i].width else 0
  }

  /**
   * What the terminal keeps true of its screen and widget list: the screen
   * fits a winsize, at most 255 widgets with their own buffers, every
   * widget but a display two rows high, all of them within the screen's
   * rows, the focus agreeing with the flags and the main display in range.
   */
  predicate Shaped(rows: SizeT, cols: SizeT, ws: seq<Widget>, focused: Option<nat>, main: Option<nat>)
  {
    && 0 < rows <= MaxScreen && 0 < cols <= MaxScreen
    && |ws| <= MaxWidgets
    && DistinctBuffers(ws)
    && (forall i :: 0 <= i < |ws| && ws[i].kind != Display ==> ws[i].height == 2)
    && Sum(Heights(ws)) <= rows
    && FocusOk(FocusFlags(ws), focused)
    && (main.Some? ==> main.value < |ws|)
  }

  /** Every buffer is as its widget's kind wants it, and a prompt's cursor lies within its data. */
  ghost predicate BuffersOk(ws: seq<Widget>)
    reads Buffers(ws)
  {
    forall i :: 0 <= i < |ws| ==> BufferOk(ws[i]) && (ws[i].kind == Prompt ==> ws[i].dataIndex <= ws[i].buffer.size)
  }

  /** A cnc_terminal, with the widgets as values and focused_widget and main_display_widget as indices. */
  class Terminal {
    var scrRows: SizeT
    var scrCols: SizeT
    var canChangeMode: bool
    var canChangeFocus: bool
    var mode: Mode
    var widgets: seq<Widget>
    var focused: Option<nat>
    /** Set by the application to let the page and scroll keys reach a display from the prompt. */
    var mainDisplay: Option<nat>

    /** The fields no operation here changes. */
    function Settings(): (SizeT, SizeT, bool, bool, Option<nat>)
      reads this
    {
      (scrRows, scrCols, canChangeMode, canChangeFocus, mainDisplay)
    }

    ghost predicate Valid()
      reads this, Buffers(widgets)
    {
      Shaped(scrRows, scrCols, widgets, focused, mainDisplay) && BuffersOk(widgets)
    }

    predicate PromptFocused()
      reads this
    {
      IsPrompt(widgets, focused)
    }

    /** The buffer of the focused prompt and its array: what typing and deleting may change. */
    function EditTarget(): set<object>
      reads this, Buffers(widgets)
    {
      if PromptFocused() then
        var b := widgets[focused.value].buffer;
        {b, b.data}
      else {}
    }

    /**
     * ct_init past its I/O: a screen of `rows` by `cols` (as ct_get_size
     * reads it), no widgets, no focus, no main display, both switches on
     * and Command mode.
     */
    constructor (rows: SizeT, cols: SizeT)
      requires 0 < rows <= MaxScreen && 0 < cols <= MaxScreen
      ensures Valid()
      ensures scrRows == rows && scrCols == cols && widgets == []
      ensures focused.None? && mainDisplay.None?
      ensures canChangeMode && canChangeFocus && mode == CommandMode
    {
      scrRows, scrCols := rows, cols;
      canChangeMode, canChangeFocus := true, true;
      mode := CommandMode;
      widgets := [];
      focused, mainDisplay := None, None;
    }

    /** ct_focused_widget: the first widget with has_focus, which is focused_widget. */
    method FocusedWidget() returns (r: Option<nat>)
      requires Valid()
      ensures r == focused
      ensures r.Some? <==> FirstFocused(FocusFlags(widgets), 0) >= 0
      ensures r.Some? ==> r.value == FirstFocused(FocusFlags(widgets), 0)
    {
      var i := 0;
      while i < |widgets|
        invariant 0 <= i <= |widgets|
        invariant forall j :: 0 <= j < i ==> !widgets[j].hasFocus
      {
        if widgets[i].hasFocus {
          FirstFocusedIs(FocusFlags(widgets), i);
          return Some(i);
        }
        i := i + 1;
      }
      FirstFocusedIs(FocusFlags(widgets), i);
      return None;
    }

    /** ct_set_mode: takes effect only while can_change_mode is set. */
    method SetMode(m: Mode)
      requires Valid()
      modifies this
      ensures Valid() && widgets == old(widgets) && focused == old(focused) && Settings() == old(Settings())
      ensures mode == if canChangeMode then m else old(mode)
    {
      if !canChangeMode {
        return;
      }
      mode := m;
    }

    /** _ct_set_mode_cmd: Command mode, only with a prompt focused. */
    method EnterCommandMode()
      requires Valid()
      modifies this
      ensures Valid() && widgets == old(widgets) && focused == old(focused) && Settings() == old(Settings())
      ensures mode == if PromptFocused() && canChangeMode then CommandMode else old(mode)
    {
      if !PromptFocused() {
        return;
      }
      SetMode(CommandMode);
    }

    /** _ct_set_mode_ins: Insert mode, only with a prompt focused. */
    method EnterInsertMode()
      requires Valid()
      modifies this
      ensures Valid() && widgets == old(widgets) && focused == old(focused) && Settings() == old(Settings())
      ensures mode == if PromptFocused() && canChangeMode then InsertMode else old(mode)
    {
      if !PromptFocused() {
        return;
      }
      SetMode(InsertMode);
    }

    /** Installs the has_focus flags of `r` and the focus that agrees with them. */
    method Refocus(r: seq<Widget>, newFocused: Option<nat>)
      requires Valid()
      requires |r| == |widgets| && forall k :: 0 <= k < |widgets| ==> r[k] == widgets[k].(hasFocus := r[k].hasFocus)
      requires FocusOk(FocusFlags(r), newFocused)
      modifies this
      ensures Valid() && mode == old(mode) && Settings() == old(Settings())
      ensures widgets == r && focused == newFocused
    {
      FocusChangeKeepsValid(scrRows, scrCols, widgets, r, focused, mainDisplay, newFocused);
      widgets, focused := r, newFocused;
    }

    /** ct_focus_widget on the widget at `target`. */
    method FocusWidget(target: nat)
      requires Valid() && target < |widgets|
      modifies this
      ensures Valid() && mode == old(mode) && Settings() == old(Settings())
      ensures widgets == FocusApplied(old(widgets), target)
      ensures focused == if TakesFocus(old(widgets), target) then Some(target) else old(focused)
    {
      if !widgets[target].canFocus || widgets[target].hasFocus {
        return;
      }
      ghost var ws := widgets;
      ghost var flags := FocusFlags(ws);
      FocusAppliedIsOnlyFocus(ws, target);
      var i := 0;
      while i < |widgets| && !(i != target && widgets[i].hasFocus)
        invariant 0 <= i <= |widgets| && widgets == ws
        invariant forall j :: 0 <= j < i && j != target ==> !flags[j]
      {
        i := i + 1;
      }
      FirstOtherIs(flags, target, i);
      var r := widgets;
      if i < |r| {
        r := r[i := r[i].(hasFocus := false)];
      }
      r := r[target := r[target].(hasFocus := true)];
      assert r == FocusApplied(ws, target) by {
        var e := FocusApplied(ws, target);
        assert |r| == |e|;
        forall k | 0 <= k < |r|
          ensures r[k] == e[k]
        {
        }
      }
      Refocus(r, Some(target));
    }

    /** ct_focus_next: the nearest focusable widget after the focused one, cyclically. */
    method FocusNext()
      requires Valid()
      modifies this
      ensures Valid() && mode == old(mode) && Settings() == old(Settings())
      ensures !canChangeFocus ==> widgets == old(widgets) && focused == old(focused)
      ensures canChangeFocus ==>
        var f := FirstFocused(FocusFlags(old(widgets)), 0);
        var s := FocusStep(CanFocusFlags(old(widgets)), f, 1);
        && (s.None? ==> widgets == old(widgets) && focused == old(focused))
        && (s.Some? ==>
              var k := Slot(f, s.value, |old(widgets)|);
              widgets == FocusApplied(old(widgets), k)
              && focused == if TakesFocus(old(widgets), k) then Some(k) else old(focused))
    {
      if !canChangeFocus {
        return;
      }
      var f := FocusedIndexOf(widgets);
      var s := FocusableStepOf(widgets, f);
      if s.Some? {
        FocusWidget(Slot(f, s.value, |widgets|));
      }
    }

    /** The rows the widgets take, as the loop of ct_add_widget sums them. */
    method HeightSum() returns (height: nat)
      ensures height == Sum(Heights(widgets))
    {
      height := 0;
      var i := 0;
      while i < |widgets|
        invariant 0 <= i <= |widgets|
        invariant height == Sum(Heights(widgets)[..i])
      {
        SumStep(Heights(widgets), i);
        height := height + widgets[i].height;
        i := i + 1;
      }
      assert Heights(widgets)[..i] == Heights(widgets);
    }

    /** Puts the fresh widget `w`, not focused, at the end of the list. */
    method Append(w: Widget)
      requires Valid() && |widgets| < MaxWidgets && w.buffer !in Buffers(widgets)
      requires BufferOk(w) && (w.kind == Prompt ==> w.dataIndex <= w.buffer.size) && !w.hasFocus
      requires (w.kind != Display ==> w.height == 2) && Sum(Heights(widgets)) + w.height <= scrRows
      modifies this
      ensures Valid() && mode == old(mode) && focused == old(focused) && Settings() == old(Settings())
      ensures widgets == old(widgets) + [w]
    {
      AppendKeepsValid(scrRows, scrCols, widgets, focused, mainDisplay, w);
      widgets := widgets + [w];
    }

    /** Appends `w` and hands it the focus the way ct_add_widget does. */
    method AppendFocused(w: Widget) returns (n: nat)
      requires Valid() && |widgets| < MaxWidgets && w.buffer !in Buffers(widgets)
      requires BufferOk(w) && (w.kind == Prompt ==> w.dataIndex <= w.buffer.size) && !w.hasFocus
      requires (w.kind != Display ==> w.height == 2) && Sum(Heights(widgets)) + w.height <= scrRows
      modifies this
      ensures Valid() && mode == old(mode) && Settings() == old(Settings())
      ensures n == |old(widgets)| && widgets == FocusApplied(old(widgets) + [w], n)
      ensures n < |widgets| && widgets[n].buffer == w.buffer
      ensures focused == if w.canFocus then Some(n) else old(focused)
    {
      n := |widgets|;
      Append(w);
      FocusAppliedIsOnlyFocus(widgets, n);
      FocusWidget(n);
    }

    /** The body of ct_add_widget once the widget `w` has been made: it is kept only if its rows still fit. */
    method AddInitial(w: Widget) returns (r: Option<nat>)
      requires Valid() && |widgets| < MaxWidgets && w.buffer !in Buffers(widgets)
      requires w.height == 2 && !w.hasFocus && w.dataIndex == 0 && BufferOk(w)
      modifies this
      ensures Valid() && mode == old(mode) && Settings() == old(Settings())
      ensures r.None? <==> Sum(Heights(old(widgets))) + 2 > scrRows
      ensures r.None? ==> widgets == old(widgets) && focused == old(focused)
      ensures r.Some? ==>
        && r.value == |old(widgets)| && |widgets| == r.value + 1 && widgets[r.value].buffer == w.buffer
        && widgets == FocusApplied(old(widgets) + [w], r.value)
        && (focused == if w.canFocus then r else old(focused))
    {
      var height := HeightSum();
      if w.height + height > scrRows {
        return None;
      }
      var n := AppendFocused(w);
      r := Some(n);
    }

    /** ct_add_widget: a new widget of `kind` at the end, if its two rows still fit; it then takes the focus. */
    method AddWidget(kind: WidgetType, uninitialised: bool) returns (r: Option<nat>)
      requires Valid() && |widgets| < MaxWidgets
      modifies this
      ensures Valid() && mode == old(mode) && Settings() == old(Settings())
      ensures r.None? <==> Sum(Heights(old(widgets))) + 2 > scrRows
      ensures r.None? ==> widgets == old(widgets) && focused == old(focused)
      ensures r.Some? ==>
        && r.value == |old(widgets)| && |widgets| == r.value + 1
        && fresh(widgets[r.value].buffer)
        && widgets == FocusApplied(old(widgets) + [Initial(kind, widgets[r.value].buffer, uninitialised)], r.value)
        && (focused == if Initial(kind, widgets[r.value].buffer, uninitialised).canFocus then r else old(focused))
      ensures r.Some? ==> var b := widgets[r.value].buffer;
        && (b.live <==> kind != Title)
        && (b.live ==> b.State() == Shape([], Min(BufferSize(kind), InitialCapacity), BufferSize(kind)))
    {
      var w := Init(kind, uninitialised);
      r := AddInitial(w);
    }

    /** The first loop of ct_setup_widgets: how many displays and how many two-line widgets. */
    method CountKinds() returns (tlw: nat, mlw: nat)
      ensures mlw == DisplayCount(Kinds(widgets)) && tlw == TwoLineCount(Kinds(widgets))
    {
      tlw, mlw := 0, 0;
      var i := 0;
      ghost var kinds := Kinds(widgets);
      while i < |widgets|
        invariant 0 <= i <= |widgets|
        invariant mlw == DisplayCount(kinds[..i]) && tlw + mlw == i
      {
        DisplayCountStep(kinds, i);
        if widgets[i].kind == Display {
          mlw := mlw + 1;
        } else {
          tlw := tlw + 1;
        }
        i := i + 1;
      }
      assert kinds[..i] == kinds;
    }

    /**
     * ct_setup_widgets: fails when the screen is too short, and otherwise
     * stacks the widgets from row 1 with the laid-out heights over the
     * whole width.
     */
    method SetupWidgets() returns (ok: bool)
      requires Valid()
      modifies this
      ensures Valid() && mode == old(mode) && focused == old(focused) && Settings() == old(Settings())
      ensures ok <==> LayoutFits(Kinds(old(widgets)), scrRows)
      ensures ok ==> widgets == Arranged(old(widgets), scrRows, scrCols)
      ensures !ok ==> widgets == old(widgets)
    {
      var tlw, mlw := CountKinds();
      if scrRows < 2 * tlw + 3 * mlw {
        return false;
      }
      var r := ArrangeWidgets(widgets, scrRows, scrCols, tlw, mlw);
      Rearrange(r);
      return true;
    }

    /** Installs the arranged list `r`: only frames change, so the invariant holds on. */
    method Rearrange(r: seq<Widget>)
      requires Valid() && LayoutFits(Kinds(widgets), scrRows) && r == Arranged(widgets, scrRows, scrCols)
      modifies this
      ensures Valid() && mode == old(mode) && focused == old(focused) && Settings() == old(Settings())
      ensures widgets == r
    {
      ArrangedKeepsShape(scrRows, scrCols, widgets, focused, mainDisplay);
      widgets := r;
    }

    /** Puts `w` in place of the widget at `f`: the one update every motion makes. */
    method Replace(f: nat, w: Widget)
      requires Valid() && f < |widgets|
      requires w.kind == widgets[f].kind && w.height == widgets[f].height && w.buffer == widgets[f].buffer
      requires w.hasFocus == widgets[f].hasFocus && w.canFocus == widgets[f].canFocus
      requires w.kind == Prompt ==> w.dataIndex <= w.buffer.size
      modifies this
      ensures Valid() && mode == old(mode) && focused == old(focused) && Settings() == old(Settings())
      ensures widgets == old(widgets)[f := w]
    {
      widgets := widgets[f := w];
      ReplaceKeepsViews(scrRows, scrCols, old(widgets), focused, mainDisplay, f, w);
    }

    // -------------------------------------------------------------------
    // Prompt motions
    // -------------------------------------------------------------------

    /** _ct_vm_l */
    method MoveCursorRight()
      requires Valid()
      modifies this
      ensures Valid() && mode == old(mode) && focused == old(focused) && Settings() == old(Settings())
      ensures old(PromptFocused()) ==>
        widgets == old(widgets)[focused.value := StepRight(old(widgets)[focused.value], old(widgets)[focused.value].buffer.size)]
      ensures !old(PromptFocused()) ==> widgets == old(widgets)
    {
      if !PromptFocused() {
        return;
      }
      var f := focused.value;
      var w := StepRightOf(widgets[f]);
      Replace(f, w);
    }

    /** _ct_vm_h */
    method MoveCursorLeft()
      requires Valid()
      modifies this
      ensures Valid() && mode == old(mode) && focused == old(focused) && Settings() == old(Settings())
      ensures old(PromptFocused()) ==> widgets == old(widgets)[focused.value := StepLeft(old(widgets)[focused.value])]
      ensures !old(PromptFocused()) ==> widgets == old(widgets)
    {
      if !PromptFocused() {
        return;
      }
      var f := focused.value;
      var w := StepLeftOf(widgets[f]);
      Replace(f, w);
    }

    /** _ct_vm_e */
    method MoveToWordEnd()
      requires Valid()
      modifies this
      ensures Valid() && mode == old(mode) && focused == old(focused) && Settings() == old(Settings())
      ensures old(PromptFocused()) ==>
        widgets == old(widgets)[focused.value := EndOfWord(old(widgets)[focused.value], old(widgets)[focused.value].buffer.Contents())]
      ensures !old(PromptFocused()) ==> widgets == old(widgets)
    {
      if !PromptFocused() {
        return;
      }
      var f := focused.value;
      var w := WordEndOf(widgets[f]);
      Replace(f, w);
    }

    /** _ct_vm_b */
    method MoveToWordStart()
      requires Valid()
      modifies this
      ensures Valid() && mode == old(mode) && focused == old(focused) && Settings() == old(Settings())
      ensures old(PromptFocused()) ==>
        widgets == old(widgets)[focused.value := StartOfWord(old(widgets)[focused.value], old(widgets)[focused.value].buffer.Contents())]
      ensures !old(PromptFocused()) ==> widgets == old(widgets)
    {
      if !PromptFocused() {
        return;
      }
      var f := focused.value;
      var w := WordStartOf(widgets[f]);
      Replace(f, w);
    }

    /**
     * What _ct_vm_$ needs of a focused prompt: a last token to read, and a
     * frame wide enough for it after the prompt symbol, without which its
     * loop never ends.
     */
    ghost predicate LineEndDefined()
      requires Valid()
      reads this, Buffers(widgets), EditTarget()
    {
      PromptFocused() ==>
        var w := widgets[focused.value];
        w.buffer.size > 0 && PromptPad + w.buffer.data[w.buffer.size - 1].width <= w.width
    }

    /** _ct_vm_$: a prompt's cursor past its last token with the tail in view; a display back to its top. */
    method MoveToLineEnd()
      requires Valid() && LineEndDefined()
      modifies this
      ensures Valid() && mode == old(mode) && focused == old(focused) && Settings() == old(Settings())
      ensures old(PromptFocused()) ==>
        widgets == old(widgets)[focused.value := EndOfLine(old(widgets)[focused.value], old(widgets)[focused.value].buffer.Contents())]
      ensures IsDisplay(old(widgets), focused) ==> widgets == old(widgets)[focused.value := old(widgets)[focused.value].(index := 0)]
      ensures !old(PromptFocused()) && !IsDisplay(old(widgets), focused) ==> widgets == old(widgets)
    {
      if focused.None? {
        return;
      }
      var f := focused.value;
      if widgets[f].kind == Prompt {
        var w := LineEndOf(widgets[f]);
        Replace(f, w);
        return;
      }
      if widgets[f].kind == Display {
        Replace(f, widgets[f].(index := 0));
      }
    }

    /** _ct_vm_0: a prompt's cursor and view to the start; a display to its last `height` rows. */
    method MoveToLineStart()
      requires Valid()
      modifies this
      ensures Valid() && mode == old(mode) && focused == old(focused) && Settings() == old(Settings())
      ensures old(PromptFocused()) ==> widgets == old(widgets)[focused.value := StartOfLine(old(widgets)[focused.value])]
      ensures IsDisplay(old(widgets), focused) ==> widgets == old(widgets)[focused.value := DisplayLastRows(old(widgets)[focused.value])]
      ensures !old(PromptFocused()) && !IsDisplay(old(widgets), focused) ==> widgets == old(widgets)
    {
      if focused.None? {
        return;
      }
      var f := focused.value;
      if widgets[f].kind == Prompt {
        Replace(f, widgets[f].(dataIndex := 0, index := 0));
        return;
      }
      if widgets[f].kind == Display {
        if widgets[f].dataIndex > widgets[f].height {
          Replace(f, widgets[f].(index := widgets[f].dataIndex - widgets[f].height));
        }
      }
    }

    /** _ct_vm_a: Insert mode, then the cursor past the token under it. */
    method AppendAfterCursor()
      requires Valid()
      modifies this
      ensures Valid() && focused == old(focused) && Settings() == old(Settings())
      ensures old(PromptFocused()) ==>
        && mode == (if canChangeMode then InsertMode else old(mode))
        && widgets == old(widgets)[focused.value := AppendStep(old(widgets)[focused.value], old(widgets)[focused.value].buffer.size)]
      ensures !old(PromptFocused()) ==> widgets == old(widgets) && mode == old(mode)
    {
      if !PromptFocused() {
        return;
      }
      SetMode(InsertMode);
      var f := focused.value;
      if widgets[f].dataIndex < widgets[f].buffer.size {
        Replace(f, widgets[f].(dataIndex := widgets[f].dataIndex + 1));
      }
    }

    /** _ct_vm_aa: '$', then Insert mode when a prompt is focused. */
    method AppendAtLineEnd()
      requires Valid() && LineEndDefined()
      modifies this
      ensures Valid() && focused == old(focused) && Settings() == old(Settings())
      ensures old(PromptFocused()) ==>
        && mode == (if canChangeMode then InsertMode else old(mode))
        && widgets == old(widgets)[focused.value := EndOfLine(old(widgets)[focused.value], old(widgets)[focused.value].buffer.Contents())]
      ensures IsDisplay(old(widgets), focused) ==>
        widgets == old(widgets)[focused.value := old(widgets)[focused.value].(index := 0)] && mode == old(mode)
      ensures !old(PromptFocused()) && !IsDisplay(old(widgets), focused) ==> widgets == old(widgets) && mode == old(mode)
    {
      MoveToLineEnd();
      EnterInsertMode();
    }

    /** _ct_vm_x: removes the token under a prompt's cursor; the cursor stays. */
    method DeleteUnderCursor()
      requires Valid()
      modifies this, EditTarget()
      ensures Valid() && mode == old(mode) && focused == old(focused) && Settings() == old(Settings())
      ensures widgets == old(widgets)
      ensures old(PromptFocused()) ==>
        var b := widgets[focused.value].buffer; var di := widgets[focused.value].dataIndex;
        && b.data == old(b.data)
        && (di < old(b.size) ==> b.Contents() == Removed(old(b.Contents()), di))
        && (di >= old(b.size) ==> b.Contents() == old(b.Contents()))
    {
      if !PromptFocused() {
        return;
      }
      var f := focused.value;
      var b := widgets[f].buffer;
      if widgets[f].dataIndex < b.size {
        var _ := b.Remove(widgets[f].dataIndex);
      }
    }

    /** _ct_delete_char (Backspace): in Insert mode, removes the token before a prompt's cursor and steps back. */
    method DeleteBeforeCursor()
      requires Valid()
      modifies this, EditTarget()
      ensures Valid() && mode == old(mode) && focused == old(focused) && Settings() == old(Settings())
      ensures old(mode == InsertMode && PromptFocused() && widgets[focused.value].dataIndex > 0) ==>
        var w := old(widgets)[focused.value]; var b := w.buffer;
        && b.Valid() && b.data == old(b.data)
        && b.Contents() == Removed(old(b.Contents()), w.dataIndex - 1)
        && widgets == old(widgets)[focused.value := w.(dataIndex := w.dataIndex - 1, index := if w.index > 0 then w.index - 1 else 0)]
      ensures !old(mode == InsertMode && PromptFocused() && widgets[focused.value].dataIndex > 0) ==>
        widgets == old(widgets) && (old(PromptFocused()) ==> widgets[focused.value].buffer.Contents() == old(widgets[focused.value].buffer.Contents()))
    {
      if mode != InsertMode || !PromptFocused() {
        return;
      }
      if widgets[focused.value].dataIndex > 0 {
        BackspaceAt(focused.value);
      }
    }

    /** The removal and cursor step of _ct_delete_char on the prompt at `f`. */
    method BackspaceAt(f: nat)
      requires Valid() && f < |widgets| && widgets[f].kind == Prompt && widgets[f].dataIndex > 0
      modifies this, widgets[f].buffer, widgets[f].buffer.data
      ensures Valid() && mode == old(mode) && focused == old(focused) && Settings() == old(Settings())
      ensures var w := old(widgets)[f]; var b := w.buffer;
        && b.Valid() && b.data == old(b.data)
        && b.Contents() == Removed(old(b.Contents()), w.dataIndex - 1)
        && widgets == old(widgets)[f := w.(dataIndex := w.dataIndex - 1, index := if w.index > 0 then w.index - 1 else 0)]
    {
      var w := widgets[f];
      OthersOkOf(widgets, f);
      var r := RemoveFromPrompt(w);
      widgets := widgets[f := r];
      EditKeepsViews(scrRows, scrCols, old(widgets), focused, mainDisplay, f, r);
    }

    /** What _ct_insert_token reads when it scrolls: the slot at the first visible index lies inside the array. */
    ghost predicate InsertDefined()
      requires Valid()
      reads this, Buffers(widgets)
    {
      PromptFocused() ==> widgets[focused.value].index < widgets[focused.value].buffer.capacity
    }

    /**
     * _ct_insert_token on the focused prompt below its maximum: cb_insert
     * at the cursor, then the cursor and view move as AfterInsert says.
     */
    method InsertToken(t: Token)
      requires Valid() && InsertDefined()
      requires PromptFocused() ==> widgets[focused.value].buffer.size < widgets[focused.value].buffer.maxCapacity
      modifies this, EditTarget()
      ensures Valid() && mode == old(mode) && focused == old(focused) && Settings() == old(Settings())
      ensures old(PromptFocused()) ==>
        var w := old(widgets)[focused.value]; var b := w.buffer;
        && b.Valid() && b.State() == Inserted(old(b.State()), t, w.dataIndex)
        && widgets == old(widgets)[focused.value := AfterInsert(w, t, b.Contents(), SlotWidth(b.data[..], w.index))]
      ensures !old(PromptFocused()) ==> widgets == old(widgets)
    {
      if !PromptFocused() {
        return;
      }
      var f := focused.value;
      OthersOkOf(widgets, f);
      var r := InsertIntoPrompt(widgets[f], t);
      widgets := widgets[f := r];
      EditKeepsViews(scrRows, scrCols, old(widgets), focused, mainDisplay, f, r);
    }

    // -------------------------------------------------------------------
    // Display motions
    // -------------------------------------------------------------------

    /** The display _ct_vm_j scrolls, as it chooses it. */
    method ScrollDownDisplay() returns (k: Option<nat>)
      requires Valid()
      ensures k == ScrollDownTarget(widgets, focused, mainDisplay)
    {
      if focused.Some? && widgets[focused.value].kind == Display
         && Wrap(widgets[focused.value].index + widgets[focused.value].height) < widgets[focused.value].dataIndex {
        return focused;
      }
      if mainDisplay.Some? && widgets[mainDisplay.value].kind == Display
         && Wrap(widgets[mainDisplay.value].index + widgets[mainDisplay.value].height) < widgets[mainDisplay.value].dataIndex {
        return mainDisplay;
      }
      return None;
    }

    /** _ct_vm_j */
    method ScrollViewDown()
      requires Valid()
      modifies this
      ensures Valid() && mode == old(mode) && focused == old(focused) && Settings() == old(Settings())
      ensures var k := ScrollDownTarget(old(widgets), focused, mainDisplay);
        && (k.Some? ==> widgets == old(widgets)[k.value := ScrolledDown(old(widgets)[k.value])])
        && (k.None? ==> widgets == old(widgets))
    {
      var k := ScrollDownDisplay();
      if k.Some? {
        var d := k.value;
        Replace(d, widgets[d].(index := Wrap(widgets[d].index + 1)));
      }
    }

    /** The display _ct_vm_k scrolls, as it chooses it. */
    method ScrollUpDisplay() returns (k: Option<nat>)
      requires Valid()
      ensures k == ScrollUpTarget(widgets, focused, mainDisplay)
    {
      if focused.Some? && widgets[focused.value].kind == Display && widgets[focused.value].index > 0 {
        return focused;
      }
      if mainDisplay.Some? && widgets[mainDisplay.value].kind == Display && widgets[mainDisplay.value].index > 0 {
        return mainDisplay;
      }
      return None;
    }

    /** _ct_vm_k */
    method ScrollViewUp()
      requires Valid()
      modifies this
      ensures Valid() && mode == old(mode) && focused == old(focused) && Settings() == old(Settings())
      ensures var k := ScrollUpTarget(old(widgets), focused, mainDisplay);
        && (k.Some? ==> widgets == old(widgets)[k.value := ScrolledUp(old(widgets)[k.value])])
        && (k.None? ==> widgets == old(widgets))
    {
      var k := ScrollUpDisplay();
      if k.Some? {
        var d := k.value;
        Replace(d, widgets[d].(index := widgets[d].index - 1));
      }
    }

    /** The display a page key acts on, as _ct_page_dn and _ct_page_up choose it. */
    method PageDisplay() returns (k: Option<nat>)
      requires Valid()
      ensures k == PageTarget(widgets, focused, mainDisplay)
    {
      if focused.Some? && widgets[focused.value].kind == Display {
        return focused;
      }
      if mainDisplay.Some? && widgets[mainDisplay.value].kind == Display {
        return mainDisplay;
      }
      return None;
    }

    /** _ct_page_dn */
    method PageViewDown()
      requires Valid()
      modifies this
      ensures Valid() && mode == old(mode) && focused == old(focused) && Settings() == old(Settings())
      ensures var k := PageTarget(old(widgets), focused, mainDisplay);
        && (k.Some? ==> widgets == old(widgets)[k.value := PagedDown(old(widgets)[k.value])])
        && (k.None? ==> widgets == old(widgets))
    {
      var k := PageDisplay();
      if k.None? {
        return;
      }
      var d := k.value;
      var w := PagedDownOf(widgets[d]);
      Replace(d, w);
    }

    /** _ct_page_up */
    method PageViewUp()
      requires Valid()
      modifies this
      ensures Valid() && mode == old(mode) && focused == old(focused) && Settings() == old(Settings())
      ensures var k := PageTarget(old(widgets), focused, mainDisplay);
        && (k.Some? ==> widgets == old(widgets)[k.value := PagedUp(old(widgets)[k.value])])
        && (k.None? ==> widgets == old(widgets))
    {
      var k := PageDisplay();
      if k.None? {
        return;
      }
      var d := k.value;
      var w := widgets[d];
      var index := 0;
      if w.index > w.height {
        index := USub(w.index, USub(w.height, 2));
      }
      Replace(d, w.(index := index));
    }

    // -------------------------------------------------------------------
    // Dispatch
    // -------------------------------------------------------------------

    /** The handler the command map pairs with `c`, run on the terminal. */
    method RunCommand(c: Command)
      requires Valid()
      requires c == LineEnd || c == AppendAtEnd ==> LineEndDefined()
      modifies this, EditTarget()
      ensures Valid() && Settings() == old(Settings())
    {
      match c
      case DeleteChar => DeleteBeforeCursor();
      case ScrollUp => ScrollViewUp();
      case ScrollDown => ScrollViewDown();
      case CursorRight => MoveCursorRight();
      case CursorLeft => MoveCursorLeft();
      case WordEnd => MoveToWordEnd();
      case WordBack => MoveToWordStart();
      case PageUp => PageViewUp();
      case PageDown => PageViewDown();
      case ModeCommand => EnterCommandMode();
      case ModeInsert => EnterInsertMode();
      case FocusNext => this.FocusNext();
      case Append => AppendAfterCursor();
      case AppendAtEnd => AppendAtLineEnd();
      case LineStart => MoveToLineStart();
      case LineEnd => MoveToLineEnd();
      case DeleteUnder => DeleteUnderCursor();
    }

    /**
     * ct_get_user_input once `t` has been read: Enter/Return at a prompt
     * in Insert mode submits, text is typed while the prompt's buffer is
     * below its maximum, and every other key runs its command.
     */
    method Dispatch(t: Token) returns (r: int)
      requires Valid()
      requires var a := Route(mode, PromptFocused(), t); a == Run(LineEnd) || a == Run(AppendAtEnd) ==> LineEndDefined()
      requires Route(mode, PromptFocused(), t).Type? ==> InsertDefined()
      modifies this, EditTarget()
      ensures Valid() && Settings() == old(Settings())
      ensures r == Returned(old(Route(mode, PromptFocused(), t)), t)
      ensures var a := old(Route(mode, PromptFocused(), t));
        a == Submit || a == NoAction ==> widgets == old(widgets) && mode == old(mode) && focused == old(focused)
      ensures var a := old(Route(mode, PromptFocused(), t));
        a.Type? ==>
          && mode == old(mode) && focused == old(focused) && old(PromptFocused())
          && var w := old(widgets)[focused.value]; var b := w.buffer;
             && b.Valid()
             && (old(b.size) < b.maxCapacity ==>
                   b.State() == Inserted(old(b.State()), a.token, w.dataIndex)
                   && widgets == old(widgets)[focused.value := AfterInsert(w, a.token, b.Contents(), SlotWidth(b.data[..], w.index))])
             && (old(b.size) >= b.maxCapacity ==> widgets == old(widgets) && b.State() == old(b.State()))
    {
      var a := Route(mode, PromptFocused(), t);
      r := Returned(a, t);
      match a
      case Submit =>
      case NoAction =>
      case Type(token) =>
        var b := widgets[focused.value].buffer;
        if b.size < b.maxCapacity {
          InsertToken(token);
        }
      case Run(c) =>
        RunCommand(c);
    }
  }

  /** Arranging the widgets changes only their frames, so the shape and the buffers stay as they were. */
  lemma ArrangedKeepsShape(rows: SizeT, cols: SizeT, ws: seq<Widget>, focused: Option<nat>, main: Option<nat>)
    requires Shaped(rows, cols, ws, focused, main) && BuffersOk(ws) && LayoutFits(Kinds(ws), rows)
    ensures Buffers(Arranged(ws, rows, cols)) == Buffers(ws)
    ensures Shaped(rows, cols, Arranged(ws, rows, cols), focused, main) && BuffersOk(Arranged(ws, rows, cols))
  {
    ArrangedStacks(ws, rows, cols);
    ArrangedFills(ws, rows, cols);
    FramesKeepShape(rows, cols, ws, Arranged(ws, rows, cols), focused, main);
  }

  /** A new frame for every widget, within the screen's rows, keeps the shape and the buffers. */
  lemma FramesKeepShape(rows: SizeT, cols: SizeT, ws: seq<Widget>, r: seq<Widget>, focused: Option<nat>, main: Option<nat>)
    requires Shaped(rows, cols, ws, focused, main) && BuffersOk(ws) && |r| == |ws|
    requires forall k :: 0 <= k < |ws| ==> r[k] == ws[k].(originRow := r[k].originRow, height := r[k].height, width := r[k].width)
    requires forall k :: 0 <= k < |ws| && ws[k].kind != Display ==> r[k].height == 2
    requires Sum(Heights(r)) <= rows
    ensures Buffers(r) == Buffers(ws)
    ensures Shaped(rows, cols, r, focused, main) && BuffersOk(r)
  {
    ArrangedViews(ws, r);
    assert forall k :: 0 <= k < |ws| ==> r[k].buffer == ws[k].buffer && r[k].kind == ws[k].kind && r[k].dataIndex == ws[k].dataIndex;
  }

  /** Setting slot `i` of `r` to the target's element extends the prefix `r` shares with `target` by one. */
  lemma PrefixStep<T>(r: seq<T>, target: seq<T>, rest: seq<T>, i: nat, x: T)
    requires i < |r| == |target| == |rest| && r[..i] == target[..i] && r[i..] == rest[i..] && target[i] == x
    ensures r[i := x][..i + 1] == target[..i + 1] && r[i := x][i + 1..] == rest[i + 1..]
  {
    assert r[i := x][..i + 1] == r[..i] + [x];
    assert target[..i + 1] == target[..i] + [x];
  }

  /** The counters of ct_setup_widgets' second loop after `i` widgets: the next display's number and the rows the displays took. */
  predicate DisplaysSoFar(ws: seq<Widget>, rows: nat, i: nat, setDisplay: nat, displayHeight: nat)
    requires LayoutFits(Kinds(ws), rows) && i <= |ws|
  {
    var d := DisplayCount(Kinds(ws)[..i]);
    d < DisplayCount(Kinds(ws)) ==> setDisplay == d + 1 && displayHeight == d * Share(Kinds(ws), rows)
  }

  /**
   * One widget of the second loop of ct_setup_widgets: a two-line widget
   * keeps its height; a display takes a share of the rows left, and the
   * last display whatever the earlier ones left over.
   */
  method NextHeight(ws: seq<Widget>, rows: nat, tlw: nat, mlw: nat, i: nat, setDisplay: nat, displayHeight: nat)
    returns (h: nat, setDisplay': nat, displayHeight': nat)
    requires mlw == DisplayCount(Kinds(ws)) && tlw == TwoLineCount(Kinds(ws)) && rows >= 2 * tlw + 3 * mlw && i < |ws|
    requires DisplaysSoFar(ws, rows, i, setDisplay, displayHeight)
    ensures h == LaidOut(Kinds(ws), Heights(ws), rows)[i]
    ensures DisplaysSoFar(ws, rows, i + 1, setDisplay', displayHeight')
  {
    ghost var kinds := Kinds(ws);
    ghost var q := Share(kinds, rows);
    ghost var d := DisplayCount(kinds[..i]);
    LaidOutStep(kinds, Heights(ws), rows, i);
    h, setDisplay', displayHeight' := ws[i].height, setDisplay, displayHeight;
    if ws[i].kind == Display {
      assert q == (rows - 2 * tlw) / mlw;
      MulSucc(d, q);
      if setDisplay < mlw {
        h := (rows - 2 * tlw) / mlw;
        displayHeight' := displayHeight + h;
        setDisplay' := setDisplay + 1;
      } else {
        h := rows - 2 * tlw - displayHeight;
      }
    }
  }

  /**
   * The second loop of ct_setup_widgets over the widget list `ws`: every
   * widget gets the full width, its laid-out height and the next free row;
   * `tlw` and `mlw` are the counts the first loop found.
   */
  method ArrangeWidgets(ws: seq<Widget>, rows: SizeT, cols: SizeT, tlw: nat, mlw: nat) returns (r: seq<Widget>)
    requires mlw == DisplayCount(Kinds(ws)) && tlw == TwoLineCount(Kinds(ws)) && 2 * tlw + 3 * mlw <= rows <= MaxScreen
    requires forall i :: 0 <= i < |ws| && ws[i].kind != Display ==> ws[i].height == 2
    ensures LayoutFits(Kinds(ws), rows) && r == Arranged(ws, rows, cols)
  {
    ghost var kinds := Kinds(ws);
    ghost var hs := LaidOut(kinds, Heights(ws), rows);
    ghost var target := Arranged(ws, rows, cols);
    ghost var q := Share(kinds, rows);
    r := ws;
    var setDisplay := 1;
    var displayHeight := 0;
    var globalRow := 1;
    var i := 0;
    assert kinds[..0] == [] && hs[..0] == [];
    assert DisplaysSoFar(ws, rows, 0, 1, 0);
    while i < |ws|
      invariant 0 <= i <= |ws| && |r| == |ws|
      invariant r[..i] == target[..i] && r[i..] == ws[i..]
      invariant globalRow == 1 + Sum(hs[..i])
      invariant DisplaysSoFar(ws, rows, i, setDisplay, displayHeight)
    {
      var h;
      h, setDisplay, displayHeight := NextHeight(ws, rows, tlw, mlw, i, setDisplay, displayHeight);
      ArrangedAt(ws, rows, cols, i);
      SumStep(hs, i);
      assert target[i].originRow == globalRow && target[i].height == h;
      PrefixStep(r, target, ws, i, ws[i].(originRow := globalRow, height := h, width := cols));
      r := r[i := ws[i].(originRow := globalRow, height := h, width := cols)];
      globalRow := globalRow + h;
      i := i + 1;
    }
    assert r == target by {
      assert r[..i] == r && target[..i] == target;
    }
  }

  /**
   * Replacing one widget by another of the same kind, height, focus flags
   * and buffer, with a prompt's cursor still within its data, keeps the
   * terminal's invariant and every view of the list.
   */
  lemma ReplaceKeepsViews(rows: SizeT, cols: SizeT, ws: seq<Widget>, focused: Option<nat>, main: Option<nat>, f: nat, w: Widget)
    requires Shaped(rows, cols, ws, focused, main) && BuffersOk(ws) && f < |ws|
    requires w.kind == ws[f].kind && w.height == ws[f].height && w.buffer == ws[f].buffer
    requires w.hasFocus == ws[f].hasFocus && w.canFocus == ws[f].canFocus
    requires w.kind == Prompt ==> w.dataIndex <= w.buffer.size
    ensures Kinds(ws[f := w]) == Kinds(ws) && Heights(ws[f := w]) == Heights(ws)
    ensures FocusFlags(ws[f := w]) == FocusFlags(ws) && CanFocusFlags(ws[f := w]) == CanFocusFlags(ws)
    ensures Buffers(ws[f := w]) == Buffers(ws)
    ensures Shaped(rows, cols, ws[f := w], focused, main) && BuffersOk(ws[f := w])
  {
    SameBuffers(ws, ws[f := w]);
  }

  /** The body of _ct_page_dn on the display `w`, in size_t arithmetic. */
  method PagedDownOf(w: Widget) returns (r: Widget)
    ensures r == PagedDown(w)
  {
    var index := w.index;
    if Wrap(w.index + Wrap(2 * USub(w.height, 2))) < w.dataIndex {
      index := Wrap(w.index + USub(w.height, 2));
    } else if Wrap(w.index + Wrap(2 * w.height)) > w.dataIndex {
      index := USub(w.dataIndex, w.height);
    }
    r := w.(index := index);
  }

  /** The first loop of ct_focus_next: the index of the focused widget, or -1. */
  method FocusedIndexOf(ws: seq<Widget>) returns (f: int)
    ensures f == FirstFocused(FocusFlags(ws), 0)
  {
    var i := 0;
    while i < |ws| && !ws[i].hasFocus
      invariant 0 <= i <= |ws|
      invariant forall j :: 0 <= j < i ==> !ws[j].hasFocus
    {
      i := i + 1;
    }
    FirstFocusedIs(FocusFlags(ws), i);
    f := if i < |ws| then i else -1;
  }

  /** The second loop of ct_focus_next: how many places after `f` the first focusable widget lies. */
  method FocusableStepOf(ws: seq<Widget>, f: int) returns (s: Option<nat>)
    requires -1 <= f < |ws|
    ensures s == FocusStep(CanFocusFlags(ws), f, 1)
  {
    ghost var cf := CanFocusFlags(ws);
    var step := 1;
    while step <= |ws|
      invariant 1 <= step <= |ws| + 1
      invariant FocusStep(cf, f, step) == FocusStep(cf, f, 1)
    {
      if ws[Slot(f, step, |ws|)].canFocus {
        return Some(step);
      }
      step := step + 1;
    }
    return None;
  }

  /** The body of _ct_vm_l on the focused prompt `w`: one token right while inside the data. */
  method StepRightOf(w: Widget) returns (r: Widget)
    requires w.buffer.Valid()
    ensures r == StepRight(w, w.buffer.size)
  {
    r := w;
    if w.dataIndex < w.buffer.size {
      var di := Wrap(w.dataIndex + 1);
      var index := w.index;
      if USub(di, w.index) > USub(USub(w.width, PromptPad), 1) {
        index := Wrap(w.index + 1);
      }
      r := w.(dataIndex := di, index := index);
    }
  }

  /** The body of _ct_vm_h on the focused prompt `w`: one token left while past the start. */
  method StepLeftOf(w: Widget) returns (r: Widget)
    ensures r == StepLeft(w)
  {
    r := w;
    if w.dataIndex > 0 {
      var di := w.dataIndex - 1;
      var index := w.index;
      if w.index > 0 && Wrap(di + LeftScrollPad) < Wrap(w.width + w.index) {
        index := w.index - 1;
      }
      r := w.(dataIndex := di, index := index);
    }
  }

  /** Whether the cursor of `w` sits on a blank token of its buffer. */
  function BlankUnder(w: Widget): (r: bool)
    requires w.buffer.Valid()
    reads w.buffer, w.buffer.data
    ensures r == SpaceAt(w.buffer.Contents(), w.dataIndex)
  {
    var t := w.buffer.Get(w.dataIndex);
    t.Some? && t.value.value == Space
  }

  /**
   * The body of _ct_vm_e on the focused prompt `w`: one 'l', then 'l'
   * over blanks, then 'l' over the word, then one 'h'.
   */
  method WordEndOf(w: Widget) returns (r: Widget)
    requires w.buffer.Valid() && w.dataIndex <= w.buffer.size < SizeModulus
    ensures r == EndOfWord(w, w.buffer.Contents())
  {
    r := StepRightOf(w);
    r := SkipRightOf(r, true);
    r := SkipRightOf(r, false);
    r := StepLeftOf(r);
  }

  /** One loop of _ct_vm_e: 'l' while the cursor is inside the data on a token whose blankness is `space`. */
  method SkipRightOf(w: Widget, space: bool) returns (r: Widget)
    requires w.buffer.Valid() && w.dataIndex <= w.buffer.size < SizeModulus
    ensures r == SkipRight(w, w.buffer.Contents(), space)
  {
    ghost var c := w.buffer.Contents();
    r := w;
    var moveForward := r.dataIndex < r.buffer.size;
    var blank := moveForward && BlankUnder(r);
    while moveForward && blank == space
      invariant r.buffer == w.buffer && r.dataIndex <= |c|
      invariant moveForward == (r.dataIndex < |c|)
      invariant moveForward ==> blank == SpaceAt(c, r.dataIndex)
      invariant SkipRight(r, c, space) == SkipRight(w, c, space)
      decreases |c| - r.dataIndex
    {
      r := StepRightOf(r);
      moveForward := r.dataIndex < r.buffer.size;
      blank := moveForward && BlankUnder(r);
    }
  }

  method WordStartOf(w: Widget) returns (r: Widget)
    requires w.buffer.Valid() && w.dataIndex <= w.buffer.size < SizeModulus
    ensures r == StartOfWord(w, w.buffer.Contents())
  {
    r := StepLeftOf(w);
    r := SkipLeftOf(r, true);
    r := SkipLeftOf(r, false);
    if r.dataIndex > 0 {
      r := StepRightOf(r);
    }
  }

  /** One loop of _ct_vm_b: 'h' while the cursor is past the start on a token whose blankness is `space`. */
  method SkipLeftOf(w: Widget, space: bool) returns (r: Widget)
    requires w.buffer.Valid() && w.dataIndex <= w.buffer.size
    ensures r == SkipLeft(w, w.buffer.Contents(), space)
  {
    ghost var c := w.buffer.Contents();
    r := w;
    var moveBackward := r.dataIndex > 0;
    var blank := moveBackward && BlankUnder(r);
    while moveBackward && blank == space
      invariant r.buffer == w.buffer && r.dataIndex <= |c|
      invariant moveBackward == (r.dataIndex > 0)
      invariant moveBackward ==> blank == SpaceAt(c, r.dataIndex)
      invariant SkipLeft(r, c, space) == SkipLeft(w, c, space)
      decreases r.dataIndex
    {
      r := StepLeftOf(r);
      moveBackward := r.dataIndex > 0;
      blank := moveBackward && BlankUnder(r);
    }
  }


  /**
   * The prompt branch of _ct_vm_$: the cursor past the last token, then
   * the first visible index moves right until the tail from it, the
   * prompt symbol and the last token's width fit the frame.
   */
  method LineEndOf(w: Widget) returns (r: Widget)
    requires w.buffer.Valid() && w.buffer.live && 0 < w.buffer.size < SizeModulus - 1
    requires PromptPad + w.buffer.data[w.buffer.size - 1].width <= w.width
    ensures r == EndOfLine(w, w.buffer.Contents())
  {
    var b := w.buffer;
    var last := b.data[b.size - 1];
    assert last == b.Contents()[|b.Contents()| - 1];
    var index := FitIndex(b, last.width, w.width, w.index);
    r := w.(dataIndex := b.size, index := index);
  }

  /** The index loop of _ct_vm_$: from `start`, the first index whose tail fits beside the prompt symbol and the last token. */
  method FitIndex(b: Buffer, lastWidth: nat, width: nat, start: SizeT) returns (index: SizeT)
    requires b.Valid() && b.live && b.size + 1 < SizeModulus && PromptPad + lastWidth <= width
    ensures index == FitFrom(b.Contents(), lastWidth, width, start)
  {
    ghost var c := b.Contents();
    index := start;
    var dw := TailWidthFrom(b, index);
    while PromptPad + lastWidth + dw > width
      invariant start <= index
      invariant FitFrom(c, lastWidth, width, index) == FitFrom(c, lastWidth, width, start)
      invariant dw == TailWidth(c, index)
      decreases |c| - index
    {
      FitStep(c, lastWidth, width, index);
      index := index + 1;
      dw := TailWidthFrom(b, index);
    }
  }

  /** cb_data_width from `start` over one token more than remain, as _ct_vm_$ calls it: the width of the tail. */
  method TailWidthFrom(b: Buffer, start: SizeT) returns (dw: nat)
    requires b.Valid() && b.live && b.size + 1 < SizeModulus
    ensures dw == TailWidth(b.Contents(), start)
  {
    dw := b.DataWidth(start, Wrap(USub(b.size, start) + 1));
    TailWindow(b.Contents(), start, dw);
  }

  /** One step of the index loop of _ct_vm_$: a tail that does not fit starts inside the data. */
  lemma FitStep(c: seq<Token>, lastWidth: nat, width: nat, j: nat)
    requires PromptPad + lastWidth <= width < PromptPad + lastWidth + TailWidth(c, j)
    ensures j < |c| && FitFrom(c, lastWidth, width, j) == FitFrom(c, lastWidth, width, j + 1)
  {
  }

  /**
   * _ct_insert_token on a prompt below its maximum: cb_insert at the
   * cursor, then the cursor and view move as AfterInsert says.
   */
  method InsertIntoPrompt(w: Widget, t: Token) returns (r: Widget)
    requires w.kind == Prompt && BufferOk(w) && w.dataIndex <= w.buffer.size < w.buffer.maxCapacity
    requires w.index < w.buffer.capacity
    modifies w.buffer, w.buffer.data
    ensures r.buffer == w.buffer && BufferOk(r) && r.dataIndex <= r.buffer.size
    ensures w.buffer.State() == Inserted(old(w.buffer.State()), t, w.dataIndex)
    ensures r == AfterInsert(w, t, w.buffer.Contents(), SlotWidth(w.buffer.data[..], w.index))
  {
    var b := w.buffer;
    ghost var sh := b.State();
    var ok := b.Insert(t, w.dataIndex);
    TypeThenBackspace(w, sh, t, SlotWidth(b.data[..], w.index));
    r := ScrollAfterInsert(w, t);
  }

  /** _ct_delete_char on a prompt with tokens before the cursor: cb_remove of the token before it, then one step back. */
  method RemoveFromPrompt(w: Widget) returns (r: Widget)
    requires w.kind == Prompt && BufferOk(w) && 0 < w.dataIndex <= w.buffer.size
    modifies w.buffer, w.buffer.data
    ensures r.buffer == w.buffer && BufferOk(r) && r.dataIndex <= r.buffer.size
    ensures w.buffer.data == old(w.buffer.data)
    ensures w.buffer.Contents() == Removed(old(w.buffer.Contents()), w.dataIndex - 1)
    ensures r == w.(dataIndex := w.dataIndex - 1, index := if w.index > 0 then w.index - 1 else 0)
  {
    var ok := w.buffer.Remove(w.dataIndex - 1);
    r := w.(dataIndex := w.dataIndex - 1, index := if w.index > 0 then w.index - 1 else 0);
  }

  /**
   * The part of _ct_insert_token after a successful cb_insert: it measures
   * the visible tokens up to the new cursor with cb_data_width, reads the
   * width of the first visible slot when the view must scroll, and moves
   * the cursor and view by InsertScroll.
   */
  method ScrollAfterInsert(w: Widget, t: Token) returns (r: Widget)
    requires w.buffer.Valid() && w.buffer.live && w.index < w.buffer.capacity && w.dataIndex < w.buffer.size
    ensures r == AfterInsert(w, t, w.buffer.Contents(), SlotWidth(w.buffer.data[..], w.index))
  {
    var b := w.buffer;
    var di := Wrap(w.dataIndex + 1);
    var width := b.DataWidth(w.index, Wrap(USub(di, w.index) + 1));
    assert width == WindowWidth(b.Contents(), w.index, Wrap(USub(di, w.index) + 1));
    var first := 0;
    if width + PromptPad + t.width > w.width {
      first := b.data[w.index].width;
      assert first == SlotWidth(b.data[..], w.index) by {
        assert b.data[..][w.index] == b.data[w.index];
      }
    }
    r := InsertScroll(w, t, width, first);
    AfterInsertIs(w, t, b.Contents(), SlotWidth(b.data[..], w.index), width, first);
  }

  lemma AfterInsertIs(w: Widget, t: Token, c: seq<Token>, fw: nat, width: nat, first: nat)
    requires width == WindowWidth(c, w.index, Wrap(USub(Wrap(w.dataIndex + 1), w.index) + 1))
    requires width + PromptPad + t.width > w.width ==> first == fw
    ensures AfterInsert(w, t, c, fw) == InsertScroll(w, t, width, first)
  {
  }

  /** The buffers of every widget but the one at `f` are as BuffersOk wants them. */
  ghost predicate OthersOk(ws: seq<Widget>, f: nat)
    reads set i | 0 <= i < |ws| && i != f :: ws[i].buffer
  {
    forall i :: 0 <= i < |ws| && i != f ==> BufferOk(ws[i]) && (ws[i].kind == Prompt ==> ws[i].dataIndex <= ws[i].buffer.size)
  }

  lemma OthersOkOf(ws: seq<Widget>, f: nat)
    requires BuffersOk(ws)
    ensures OthersOk(ws, f)
  {
  }

  /**
   * After the buffer at `f` changed, putting `w` in place of the widget
   * there keeps the invariant, provided the other buffers are still good
   * and `w`'s buffer and cursor are too.
   */
  lemma EditKeepsViews(rows: SizeT, cols: SizeT, ws: seq<Widget>, focused: Option<nat>, main: Option<nat>, f: nat, w: Widget)
    requires Shaped(rows, cols, ws, focused, main) && OthersOk(ws, f) && f < |ws|
    requires w.kind == ws[f].kind && w.height == ws[f].height && w.buffer == ws[f].buffer
    requires w.hasFocus == ws[f].hasFocus && w.canFocus == ws[f].canFocus
    requires BufferOk(w) && (w.kind == Prompt ==> w.dataIndex <= w.buffer.size)
    ensures Shaped(rows, cols, ws[f := w], focused, main) && BuffersOk(ws[f := w])
  {
    var r := ws[f := w];
    SameBuffers(ws, r);
    assert Heights(r) == Heights(ws) && FocusFlags(r) == FocusFlags(ws);
    forall i | 0 <= i < |r|
      ensures BufferOk(r[i]) && (r[i].kind == Prompt ==> r[i].dataIndex <= r[i].buffer.size)
    {
      if i != f {
        assert r[i] == ws[i];
      }
    }
  }

  lemma FirstOtherIs(flags: seq<bool>, target: nat, i: nat)
    requires i <= |flags| && forall j :: 0 <= j < i && j != target ==> !flags[j]
    requires i < |flags| ==> i != target && flags[i]
    ensures i == FirstOther(flags, target, 0)
  {
  }

  lemma FirstFocusedIs(flags: seq<bool>, i: nat)
    requires i <= |flags| && forall j :: 0 <= j < i ==> !flags[j]
    requires i < |flags| ==> flags[i]
    ensures (if i < |flags| then i else -1) == FirstFocused(flags, 0)
  {
  }

  /** Changing the has_focus flags only, to flags the new focus agrees with, keeps the invariant. */
  lemma FocusChangeKeepsValid(rows: SizeT, cols: SizeT, ws: seq<Widget>, r: seq<Widget>, focused: Option<nat>, main: Option<nat>, newFocused: Option<nat>)
    requires Shaped(rows, cols, ws, focused, main) && BuffersOk(ws)
    requires |r| == |ws| && forall k :: 0 <= k < |ws| ==> r[k] == ws[k].(hasFocus := r[k].hasFocus)
    requires FocusOk(FocusFlags(r), newFocused)
    ensures Shaped(rows, cols, r, newFocused, main) && BuffersOk(r)
  {
    ViewsOfFocusChange(ws, r);
    forall k | 0 <= k < |r|
      ensures BufferOk(r[k]) && (r[k].kind == Prompt ==> r[k].dataIndex <= r[k].buffer.size)
    {
      assert r[k].buffer == ws[k].buffer;
    }
  }

  /** Appending an unfocused widget with its own good buffer, within the screen's rows, keeps the invariant. */
  lemma AppendKeepsValid(rows: SizeT, cols: SizeT, ws: seq<Widget>, focused: Option<nat>, main: Option<nat>, w: Widget)
    requires Shaped(rows, cols, ws, focused, main) && BuffersOk(ws) && |ws| < MaxWidgets && w.buffer !in Buffers(ws)
    requires BufferOk(w) && (w.kind == Prompt ==> w.dataIndex <= w.buffer.size) && !w.hasFocus
    requires (w.kind != Display ==> w.height == 2) && Sum(Heights(ws)) + w.height <= rows
    ensures Shaped(rows, cols, ws + [w], focused, main) && BuffersOk(ws + [w])
  {
    AppendViews(ws, w);
    AppendDistinct(ws, w);
    AppendBuffersOk(ws, w);
    FocusOkAppend(FocusFlags(ws), focused);
  }

  /** A widget whose buffer no other widget holds keeps the buffers distinct. */
  lemma AppendDistinct(ws: seq<Widget>, w: Widget)
    requires DistinctBuffers(ws) && w.buffer !in Buffers(ws)
    ensures DistinctBuffers(ws + [w])
  {
    var r := ws + [w];
    forall i, j | 0 <= i < |r| && 0 <= j < |r| && i != j
      ensures r[i].buffer != r[j].buffer
    {
      if i == |ws| {
        assert r[j].buffer == ws[j].buffer && ws[j].buffer in Buffers(ws);
      } else if j == |ws| {
        assert r[i].buffer == ws[i].buffer && ws[i].buffer in Buffers(ws);
      }
    }
  }

  /** Appending a widget with a good buffer keeps every buffer good. */
  lemma AppendBuffersOk(ws: seq<Widget>, w: Widget)
    requires BuffersOk(ws) && BufferOk(w) && (w.kind == Prompt ==> w.dataIndex <= w.buffer.size)
    ensures BuffersOk(ws + [w])
  {
    var r := ws + [w];
    forall k | 0 <= k < |r|
      ensures BufferOk(r[k]) && (r[k].kind == Prompt ==> r[k].dataIndex <= r[k].buffer.size)
    {
      if k < |ws| {
        assert r[k] == ws[k];
      }
    }
  }

  /** One more unset focus flag keeps the focus agreement. */
  lemma FocusOkAppend(flags: seq<bool>, focused: Option<nat>)
    requires FocusOk(flags, focused)
    ensures FocusOk(flags + [false], focused)
  {
    assert forall k :: 0 <= k < |flags| ==> (flags + [false])[k] == flags[k];
  }

  /** Changing has_focus flags only keeps the kinds, heights, focusability and buffers. */
  lemma ViewsOfFocusChange(ws: seq<Widget>, r: seq<Widget>)
    requires |r| == |ws| && forall k :: 0 <= k < |ws| ==> r[k] == ws[k].(hasFocus := r[k].hasFocus)
    ensures Kinds(r) == Kinds(ws) && Heights(r) == Heights(ws) && CanFocusFlags(r) == CanFocusFlags(ws)
    ensures Buffers(r) == Buffers(ws)
  {
    SameBuffers(ws, r);
  }

  /** Changing the frames only keeps the kinds, focus flags and buffers. */
  lemma ArrangedViews(ws: seq<Widget>, r: seq<Widget>)
    requires |r| == |ws|
    requires forall k :: 0 <= k < |ws| ==> r[k] == ws[k].(originRow := r[k].originRow, height := r[k].height, width := r[k].width)
    ensures Kinds(r) == Kinds(ws) && FocusFlags(r) == FocusFlags(ws) && CanFocusFlags(r) == CanFocusFlags(ws)
    ensures Buffers(r) == Buffers(ws)
  {
    SameBuffers(ws, r);
  }

  lemma SameBuffers(ws: seq<Widget>, r: seq<Widget>)
    requires |r| == |ws| && forall k :: 0 <= k < |ws| ==> r[k].buffer == ws[k].buffer
    ensures Buffers(r) == Buffers(ws)
  {
    forall b
      ensures b in Buffers(r) <==> b in Buffers(ws)
    {
      if b in Buffers(ws) {
        var i :| 0 <= i < |ws| && ws[i].buffer == b;
        assert r[i].buffer == b;
      }
      if b in Buffers(r) {
        var i :| 0 <= i < |r| && r[i].buffer == b;
        assert ws[i].buffer == b;
      }
    }
  }

  /** The views of a list with one widget appended. */
  lemma AppendViews(ws: seq<Widget>, w: Widget)
    ensures Kinds(ws + [w]) == Kinds(ws) + [w.kind]
    ensures Heights(ws + [w]) == Heights(ws) + [w.height]
    ensures FocusFlags(ws + [w]) == FocusFlags(ws) + [w.hasFocus]
    ensures CanFocusFlags(ws + [w]) == CanFocusFlags(ws) + [w.canFocus]
    ensures Buffers(ws + [w]) == Buffers(ws) + {w.buffer}
    ensures Sum(Heights(ws + [w])) == Sum(Heights(ws)) + w.height
  {
    var r := ws + [w];
    assert Heights(r)[..|ws|] == Heights(ws);
    forall b
      ensures b in Buffers(r) <==> b in Buffers(ws) + {w.buffer}
    {
      if b in Buffers(ws) {
        var i :| 0 <= i < |ws| && ws[i].buffer == b;
        assert r[i].buffer == b;
      }
      if b == w.buffer {
        assert r[|ws|].buffer == b;
      }
      if b in Buffers(r) {
        var i :| 0 <= i < |r| && r[i].buffer == b;
        if i < |ws| {
          assert ws[i].buffer == b;
        }
      }
    }
  }

  /** What cb_data_width returns from `start` over one more token than remain is the tail's width. */
  lemma TailWindow(c: seq<Token>, start: nat, dw: nat)
    requires |c| + 1 < SizeModulus
    requires start < |c| ==> dw == WidthSum(c[start..start + Clamped(|c|, start, Wrap(USub(|c|, start) + 1))])
    requires start >= |c| ==> dw == 0
    ensures dw == TailWidth(c, start)
  {
    if start < |c| {
      assert Wrap(USub(|c|, start) + 1) == |c| - start + 1;
      assert c[start..start + (|c| - start)] == c[start..];
    }
  }

  /**
   * One step of the layout loop of ct_setup_widgets: how the display count
   * grows at widget i and the height widget i gets.
   */
  lemma LaidOutStep(kinds: seq<WidgetType>, heights: seq<nat>, rows: nat, i: nat)
    requires |heights| == |kinds| && LayoutFits(kinds, rows) && i < |kinds|
    ensures var d := DisplayCount(kinds[..i]); var hs := LaidOut(kinds, heights, rows);
      && DisplayCount(kinds[..i + 1]) == d + (if kinds[i] == Display then 1 else 0) <= DisplayCount(kinds)
      && (kinds[i] != Display ==> hs[i] == heights[i])
      && (kinds[i] == Display && d + 1 < DisplayCount(kinds) ==> hs[i] == Share(kinds, rows))
      && (kinds[i] == Display && d + 1 >= DisplayCount(kinds) ==>
            d + 1 == DisplayCount(kinds) && hs[i] == DisplayRows(kinds, rows) - d * Share(kinds, rows))
  {
    DisplayCountStep(kinds, i);
    assert kinds[..i + 1] + kinds[i + 1..] == kinds;
    DisplayCountSplit(kinds[..i + 1], kinds[i + 1..]);
  }
}
