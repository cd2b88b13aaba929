/**
 * The terminal of the first generation of the library (cnc_library.c):
 * widgets over a char buffer, the colour-code lookup, the vi-like
 * motions and edits of a prompt, the scrolling of a display, and a
 * terminal object with its mode switch, focus rules and row layout.
 * The layout and focus rules are those of the token generation, so this
 * module states its results with the functions of TerminalRules.
 */
module LegacyTerminal {
  import opened Basics
  import opened CharBuffer
  import W = Widget
  import R = TerminalRules
  import T = Terminal

  // ---------------------------------------------------------------------
  // Colour codes (_color_code_to_color)
  // ---------------------------------------------------------------------

  datatype Hue = Black | Red | Green | Yellow | Blue | Magenta | Cyan | White

  /** The colour string a code selects: a foreground or a background escape of one hue. */
  datatype Paint = Foreground(hue: Hue) | Background(hue: Hue)

  const Hues: seq<Hue> := [Black, Red, Green, Yellow, Blue, Magenta, Cyan, White]

  /**
   * The sixteen COLOR_CODE_* values, the eight foreground codes first,
   * each group in the order of Hues.  They label the cases of one switch,
   * so they are distinct.
   */
  predicate CodeTable(codes: seq<int>)
  {
    |codes| == 16 && forall i, j :: 0 <= i < j < 16 ==> codes[i] != codes[j]
  }

  /** What the case at position i of the table selects. */
  function PaintAt(i: nat): (p: Paint)
    requires i < 16
    ensures i < 8 <==> p.Foreground?
  {
    if i < 8 then Foreground(Hues[i]) else Background(Hues[i - 8])
  }

  /** The position of `code` in the table from `i` on, or |codes| when it is not there. */
  function FindCode(code: int, codes: seq<int>, i: nat): (r: nat)
    requires i <= |codes|
    ensures i <= r <= |codes|
    ensures r < |codes| ==> codes[r] == code
    ensures forall j :: i <= j < r ==> codes[j] != code
    decreases |codes| - i
  {
    if i == |codes| then i
    else if codes[i] == code then i
    else FindCode(code, codes, i + 1)
  }

  /**
   * _color_code_to_color: with somewhere to store the colour (`out`), a
   * foreground code stores its colour and gives 2, a background code
   * stores its colour and gives 1; anything else stores nothing and gives 0.
   */
  function CodeToColor(code: int, codes: seq<int>, out: bool): (r: (int, Option<Paint>))
    requires CodeTable(codes)
    ensures r.0 == 2 <==> out && exists i :: 0 <= i < 8 && codes[i] == code
    ensures r.0 == 1 <==> out && exists i :: 8 <= i < 16 && codes[i] == code
    ensures r.0 == 0 <==> r.1.None?
    ensures forall i :: 0 <= i < 16 && codes[i] == code && out ==> r.1 == Some(PaintAt(i))
  {
    if !out then (0, None)
    else
      var i := FindCode(code, codes, 0);
      if i == 16 then (0, None)
      else (if i < 8 then 2 else 1, Some(PaintAt(i)))
  }

  // ---------------------------------------------------------------------
  // Widgets
  // ---------------------------------------------------------------------

  /** The widget kinds of this generation: info, prompt and display. */
  type Kind = k: W.WidgetType | k != W.Title witness W.Info

  /**
   * A cnc_widget of this generation as a value: frame, kind, the two
   * indices, the focus flags and the reference to its char buffer, which
   * the edits change in place.  Its two colour strings only matter to
   * drawing and are not kept.
   */
  datatype Widget = Widget(
    originRow: SizeT, originCol: SizeT, width: SizeT, height: SizeT,
    kind: Kind,
    /** Prompt: first visible byte; display: rows scrolled back from the newest. */
    index: SizeT,
    /** Prompt: the cursor in the text; display: the number of rows. */
    dataIndex: SizeT,
    data: Buffer,
    canFocus: bool,
    hasFocus: bool)

  /** The fields cnc_widget_init sets around the buffer `data`. */
  function Initial(kind: Kind, data: Buffer): (w: Widget)
  {
    Widget(1, 1, 1, 2, kind, 0, 0, data, kind != W.Info, false)
  }

  /**
   * cnc_widget_init: origin (1, 1), two rows, one column, both indices 0,
   * no focus, focusable unless an info widget, over a fresh empty buffer
   * of `bufferSize` bytes (the size the kind's constant gives).
   */
  method Init(kind: Kind, bufferSize: nat) returns (w: Widget)
    ensures fresh(w.data) && fresh(w.data.contents) && w.data.Valid()
    ensures w == Initial(kind, w.data)
    ensures w.originRow == 1 && w.originCol == 1 && w.height == 2 && w.width == 1
    ensures w.index == 0 && w.dataIndex == 0 && !w.hasFocus && (w.canFocus <==> kind != W.Info)
    ensures w.data.size == bufferSize && w.data.length == 0 && w.data.Bytes() == Zeros(bufferSize + 1)
  {
    var b := new Buffer(bufferSize);
    w := Initial(kind, b);
  }

  /** cnc_widget_reset: the buffer is cleared and both indices go to 0; nothing else changes. */
  method Reset(w: Widget) returns (r: Widget)
    requires w.data.Valid()
    modifies w.data, w.data.contents
    ensures r == w.(index := 0, dataIndex := 0)
    ensures w.data.Valid() && w.data.contents == old(w.data.contents) && w.data.size == old(w.data.size)
    ensures w.data.length == 0 && w.data.Bytes() == Zeros(w.data.size + 1)
  {
    w.data.Clear();
    r := w.(dataIndex := 0, index := 0);
  }

  // ---------------------------------------------------------------------
  // Display scrolling
  // ---------------------------------------------------------------------

  /** _vim_mode_k: a display scrolls one row back while older rows remain above the view. */
  function ScrollBack(w: Widget): (r: Widget)
    ensures r == w.(index := r.index)
  {
    if w.kind == W.Display && Wrap(w.index + w.height) < w.dataIndex then w.(index := Wrap(w.index + 1)) else w
  }

  /** _vim_mode_j: a display scrolls one row towards the newest. */
  function ScrollForward(w: Widget): (r: Widget)
    ensures r == w.(index := r.index)
  {
    if w.kind == W.Display && w.index > 0 then w.(index := w.index - 1) else w
  }

  /**
   * 'k' moves a display back by exactly one row while a full view of
   * older rows remains, never past the oldest row, and 'j' undoes it;
   * 'j' moves forward by one row until the newest rows show.
   */
  lemma ScrollBackThenForward(w: Widget)
    requires w.index + w.height + 1 < SizeModulus
    ensures var b := ScrollBack(w);
      && (w.kind == W.Display && w.index + w.height < w.dataIndex ==>
            b.index == w.index + 1 && b.index + w.height <= w.dataIndex && ScrollForward(b) == w)
      && (!(w.kind == W.Display && w.index + w.height < w.dataIndex) ==> b == w)
    ensures ScrollForward(w).index == if w.kind == W.Display && w.index > 0 then w.index - 1 else w.index
  {
  }

  /** _page_up: a display moves a page back while one remains, and otherwise to its oldest full page. */
  function PageBack(w: Widget): (r: Widget)
    ensures r == w.(index := r.index)
  {
    if w.kind != W.Display then w
    else if Wrap(w.index + w.height) < w.dataIndex then w.(index := Wrap(w.index + w.height))
    else if w.dataIndex > w.height then w.(index := w.dataIndex - w.height)
    else w
  }

  /** _page_dn: a display moves a page towards the newest rows, stopping at them. */
  function PageForward(w: Widget): (r: Widget)
    ensures r == w.(index := r.index)
  {
    if w.kind == W.Display && w.index > 0 then w.(index := if w.index > w.height then w.index - w.height else 0)
    else w
  }

  /**
   * Page-down never moves back and stops at the newest rows; page-up
   * moves back by a full page while one remains, which page-down then
   * undoes, and otherwise shows the oldest full page.
   */
  lemma PagesRoundTrip(w: Widget)
    requires w.kind == W.Display && w.index + 2 * w.height < SizeModulus
    ensures PageForward(w).index <= w.index
    ensures w.index > 0 ==> PageForward(w).index == if w.index > w.height then w.index - w.height else 0
    ensures w.index + w.height < w.dataIndex ==> PageBack(w).index == w.index + w.height && PageForward(PageBack(w)) == w
    ensures !(w.index + w.height < w.dataIndex) && w.dataIndex > w.height ==> PageBack(w).index + w.height == w.dataIndex
  {
  }

  /** _vim_mode_0: a prompt's cursor and view go to the start; a display shows its oldest full page. */
  function Home(w: Widget): (r: Widget)
    ensures r == w.(index := r.index, dataIndex := r.dataIndex)
  {
    if w.kind == W.Prompt then w.(dataIndex := 0, index := 0)
    else if w.kind == W.Display && w.dataIndex > w.height then w.(index := w.dataIndex - w.height)
    else w
  }

  /** _vim_mode_$: a prompt's cursor goes past the last byte, with the view following; a display shows its newest rows. */
  function End(w: Widget, length: SizeT): (r: Widget)
    ensures r == w.(index := r.index, dataIndex := r.dataIndex)
  {
    if w.kind == W.Prompt then
      w.(dataIndex := length,
         index := if length > USub(w.width, RightPad) then Wrap(USub(length, w.width) + RightPad) else w.index)
    else if w.kind == W.Display then w.(index := 0)
    else w
  }

  /** Columns a prompt keeps free at its right edge: the cursor stays before width - 3. */
  const RightPad: nat := 3
  /** 'h' scrolls a prompt back once the cursor is fewer than width - 6 columns into the view. */
  const LeftPad: nat := 6

  /**
   * '0' and '$' on a display show the oldest and the newest full page;
   * on a prompt '0' puts the cursor at the start, '$' past the last byte
   * in the last column the view keeps for it.
   */
  lemma EndsOfData(w: Widget, length: SizeT)
    ensures w.kind == W.Display ==> End(w, length).index == 0
    ensures w.kind == W.Display && w.dataIndex > w.height ==> Home(w).index + w.height == w.dataIndex
    ensures w.kind == W.Prompt ==> Home(w).index == 0 && Home(w).dataIndex == 0
    ensures w.kind == W.Prompt ==> End(w, length).dataIndex == length
    ensures w.kind == W.Prompt && RightPad <= w.width && length + RightPad > w.width ==>
      End(w, length).index + (w.width - RightPad) == length
  {
    if w.kind == W.Prompt && RightPad <= w.width && length + RightPad > w.width {
      var x := USub(length, w.width) + RightPad;
      if length < w.width {
        assert x == SizeModulus + (length + RightPad - w.width);
        assert Wrap(x) == length + RightPad - w.width;
      }
    }
  }

  // ---------------------------------------------------------------------
  // Prompt cursor
  // ---------------------------------------------------------------------

  /** _vim_mode_l: a prompt's cursor moves one byte right inside the text, and the view follows near the edge. */
  function CursorRight(w: Widget, length: nat): (r: Widget)
    ensures r == w.(index := r.index, dataIndex := r.dataIndex)
  {
    if w.kind == W.Prompt && w.dataIndex < length then
      var di := Wrap(w.dataIndex + 1);
      w.(dataIndex := di, index := if USub(di, w.index) > USub(w.width, RightPad) then Wrap(w.index + 1) else w.index)
    else w
  }

  /** _vim_mode_h: a prompt's cursor moves one byte left, and the view scrolls back near its start. */
  function CursorLeft(w: Widget): (r: Widget)
    ensures r == w.(index := r.index, dataIndex := r.dataIndex)
  {
    if w.kind == W.Prompt && w.dataIndex > 0 then
      var di := w.dataIndex - 1;
      w.(dataIndex := di, index := if w.index > 0 && USub(di, w.index) < USub(w.width, LeftPad) then w.index - 1 else w.index)
    else w
  }

  /**
   * 'l' and 'h' keep a prompt's cursor within its text: 'l' advances it
   * exactly when it is before the end, 'h' moves it back exactly when it
   * is past the start, and 'h' undoes the cursor move of a successful 'l'.
   */
  lemma CursorStaysInText(w: Widget, length: nat)
    requires w.dataIndex <= length < SizeModulus
    ensures CursorRight(w, length).dataIndex == if w.kind == W.Prompt && w.dataIndex < length then w.dataIndex + 1 else w.dataIndex
    ensures CursorRight(w, length).dataIndex <= length
    ensures CursorLeft(w).dataIndex == if w.kind == W.Prompt && w.dataIndex > 0 then w.dataIndex - 1 else w.dataIndex
    ensures w.kind == W.Prompt && w.dataIndex < length ==> CursorLeft(CursorRight(w, length)).dataIndex == w.dataIndex
  {
  }

  /**
   * The cursor of a prompt lies in its view: at most width - 3 columns
   * past the first visible byte, and, once the view has scrolled, at
   * least width - 6 columns in.
   */
  predicate CursorVisible(w: Widget)
  {
    && w.index <= w.dataIndex
    && w.dataIndex - w.index + RightPad <= w.width
    && (w.index > 0 ==> w.dataIndex - w.index + LeftPad >= w.width)
  }

  /** How _insert_char moves the cursor and the view after a byte went in. */
  function AfterType(w: Widget): (r: Widget)
    ensures r == w.(index := r.index, dataIndex := r.dataIndex)
  {
    var di := Wrap(w.dataIndex + 1);
    w.(dataIndex := di, index := if di > USub(w.width, RightPad) then Wrap(w.index + 1) else w.index)
  }

  /** How _delete_char moves the cursor and the view after the byte before the cursor went. */
  function AfterBackspace(w: Widget): (r: Widget)
    requires w.dataIndex > 0
    ensures r == w.(index := r.index, dataIndex := w.dataIndex - 1)
  {
    w.(dataIndex := w.dataIndex - 1, index := if w.index > 0 then w.index - 1 else 0)
  }

  /** On a prompt at least seven columns wide, 'l' and 'h' keep the cursor in view. */
  lemma CursorStepsKeepCursorVisible(w: Widget, length: nat)
    requires w.kind == W.Prompt && 7 <= w.width && CursorVisible(w)
    requires w.dataIndex <= length && length + w.width < SizeModulus
    ensures CursorVisible(CursorRight(w, length)) && CursorVisible(CursorLeft(w))
  {
  }

  /** '0' and '$' leave the cursor of a prompt at least seven columns wide in view. */
  lemma EndsKeepCursorVisible(w: Widget, length: nat)
    requires w.kind == W.Prompt && 7 <= w.width && CursorVisible(w) && w.dataIndex <= length
    requires length + w.width < SizeModulus
    ensures CursorVisible(Home(w)) && CursorVisible(End(w, length))
  {
    EndsOfData(w, length);
  }

  /** A typed byte and a backspace keep the cursor of a prompt at least seven columns wide in view. */
  lemma EditsKeepCursorVisible(w: Widget)
    requires w.kind == W.Prompt && 7 <= w.width && CursorVisible(w)
    requires w.dataIndex + w.width < SizeModulus
    ensures CursorVisible(AfterType(w))
    ensures w.dataIndex > 0 ==> CursorVisible(AfterBackspace(w))
  {
  }

  /**
   * A byte typed and then erased puts the cursor back, and the view too
   * when typing scrolled it or it was at the start.
   */
  lemma TypeThenBackspace(w: Widget)
    requires w.dataIndex + 1 < SizeModulus && w.index + 1 < SizeModulus
    ensures AfterType(w).dataIndex == w.dataIndex + 1
    ensures AfterBackspace(AfterType(w)).dataIndex == w.dataIndex
    ensures w.index == 0 || AfterType(w).index != w.index ==> AfterBackspace(AfterType(w)) == w
  {
  }

  // ---------------------------------------------------------------------
  // Word motions ('e' and 'b')
  // ---------------------------------------------------------------------

  predicate SpaceAt(bytes: seq<Byte>, i: nat)
    requires i < |bytes|
  {
    bytes[i] == SpaceByte
  }

  /** Repeated 'l' while the cursor is inside the text on a byte whose spaceness is `space`. */
  function SkipRight(w: Widget, bytes: seq<Byte>, length: nat, space: bool): (r: Widget)
    requires w.kind == W.Prompt && w.dataIndex <= length < |bytes| && length < SizeModulus
    ensures r.kind == W.Prompt && w.dataIndex <= r.dataIndex <= length
    ensures r == w.(index := r.index, dataIndex := r.dataIndex)
    ensures r.dataIndex == length || SpaceAt(bytes, r.dataIndex) != space
    ensures forall j :: w.dataIndex <= j < r.dataIndex ==> SpaceAt(bytes, j) == space
    decreases length - w.dataIndex
  {
    if w.dataIndex < length && SpaceAt(bytes, w.dataIndex) == space then SkipRight(CursorRight(w, length), bytes, length, space)
    else w
  }

  /**
   * _vim_mode_e on a prompt: one step right, past the spaces, past the
   * word, and one step back onto its last byte.
   */
  function EndOfWord(w: Widget, bytes: seq<Byte>, length: nat): (r: Widget)
    requires w.kind == W.Prompt && w.dataIndex <= length < |bytes| && length < SizeModulus
  {
    var first := CursorRight(w, length);
    CursorLeft(SkipRight(SkipRight(first, bytes, length, true), bytes, length, false))
  }

  /** The byte at j ends a word: it is not a space, and the text ends or a space follows. */
  predicate WordEndAt(bytes: seq<Byte>, length: nat, j: nat)
    requires length <= |bytes|
  {
    j < length && !SpaceAt(bytes, j) && (j + 1 == length || SpaceAt(bytes, j + 1))
  }

  /**
   * 'e' goes to the end of the first word that ends after the cursor;
   * with only spaces ahead it stops on the last byte.
   */
  lemma EndOfWordLands(w: Widget, bytes: seq<Byte>, length: nat)
    requires w.kind == W.Prompt && w.dataIndex < length < |bytes| && length < SizeModulus
    ensures var r := EndOfWord(w, bytes, length);
      (exists k :: w.dataIndex < k < length && !SpaceAt(bytes, k)) ==>
        && w.dataIndex < r.dataIndex && WordEndAt(bytes, length, r.dataIndex)
        && forall j :: w.dataIndex < j < r.dataIndex ==> !WordEndAt(bytes, length, j)
    ensures (forall k :: w.dataIndex < k < length ==> SpaceAt(bytes, k)) ==>
      EndOfWord(w, bytes, length).dataIndex == length - 1
  {
    var first := CursorRight(w, length);
    assert first.dataIndex == w.dataIndex + 1;
    var s := SkipRight(first, bytes, length, true);
    var p := SkipRight(s, bytes, length, false);
    assert EndOfWord(w, bytes, length).dataIndex == p.dataIndex - 1;
    WordEndAfterRuns(bytes, length, w.dataIndex, s.dataIndex, p.dataIndex);
  }

  /**
   * The index arithmetic of 'e': after the cursor `d` comes a run of
   * spaces up to `a`, then a run of other bytes up to `b`; the byte
   * before `b` ends the first word after `d`, if there is one.
   */
  lemma WordEndAfterRuns(bytes: seq<Byte>, length: nat, d: nat, a: nat, b: nat)
    requires d < a <= b <= length < |bytes|
    requires forall j :: d < j < a ==> SpaceAt(bytes, j)
    requires a == length || !SpaceAt(bytes, a)
    requires forall j :: a <= j < b ==> !SpaceAt(bytes, j)
    requires b == length || SpaceAt(bytes, b)
    ensures (exists k :: d < k < length && !SpaceAt(bytes, k)) ==>
      && d < b - 1 && WordEndAt(bytes, length, b - 1)
      && forall j :: d < j < b - 1 ==> !WordEndAt(bytes, length, j)
    ensures (forall k :: d < k < length ==> SpaceAt(bytes, k)) ==> b == length
  {
    if exists k :: d < k < length && !SpaceAt(bytes, k) {
      var k :| d < k < length && !SpaceAt(bytes, k);
      assert a <= k;
      forall j | d < j < b - 1
        ensures !WordEndAt(bytes, length, j)
      {
        if j >= a {
          assert !SpaceAt(bytes, j + 1);
        }
      }
    }
  }

  /** Repeated 'h' while the cursor is past the start on a byte whose spaceness is `space`. */
  function SkipLeft(w: Widget, bytes: seq<Byte>, space: bool): (r: Widget)
    requires w.kind == W.Prompt && w.dataIndex < |bytes|
    ensures r.kind == W.Prompt && r.dataIndex <= w.dataIndex
    ensures r == w.(index := r.index, dataIndex := r.dataIndex)
    ensures r.dataIndex == 0 || SpaceAt(bytes, r.dataIndex) != space
    ensures forall j :: r.dataIndex < j <= w.dataIndex ==> SpaceAt(bytes, j) == space
    decreases w.dataIndex
  {
    if w.dataIndex > 0 && SpaceAt(bytes, w.dataIndex) == space then SkipLeft(CursorLeft(w), bytes, space)
    else w
  }

  /**
   * _vim_mode_b on a prompt: one step left, back over the spaces, back
   * over the word, and one step right onto its first byte unless the scan
   * reached the start of the text.
   */
  function StartOfWord(w: Widget, bytes: seq<Byte>, length: nat): (r: Widget)
    requires w.kind == W.Prompt && w.dataIndex <= length < |bytes| && length < SizeModulus
  {
    var p := SkipLeft(SkipLeft(CursorLeft(w), bytes, true), bytes, false);
    if p.dataIndex > 0 then CursorRight(p, length) else p
  }

  /** The byte at j starts a word: it is not a space, and the text starts or a space comes before it. */
  predicate WordStartAt(bytes: seq<Byte>, length: nat, j: nat)
    requires length <= |bytes|
  {
    j < length && !SpaceAt(bytes, j) && (j == 0 || SpaceAt(bytes, j - 1))
  }

  /**
   * 'b' moves the cursor back, onto the start of the nearest word that
   * starts before it, unless the scan runs into the start of the text.
   */
  lemma StartOfWordLands(w: Widget, bytes: seq<Byte>, length: nat)
    requires w.kind == W.Prompt && 0 < w.dataIndex <= length < |bytes| && length < SizeModulus
    ensures var r := StartOfWord(w, bytes, length);
      && r.dataIndex < w.dataIndex
      && (r.dataIndex > 0 ==>
            && WordStartAt(bytes, length, r.dataIndex)
            && forall j :: r.dataIndex < j < w.dataIndex ==> !WordStartAt(bytes, length, j))
  {
    var d := CursorLeft(w);
    var s := SkipLeft(d, bytes, true);
    var p := SkipLeft(s, bytes, false);
    var r := StartOfWord(w, bytes, length);
    if p.dataIndex > 0 {
      assert p.dataIndex < s.dataIndex;
      assert r.dataIndex == p.dataIndex + 1;
      forall j | r.dataIndex < j < w.dataIndex
        ensures !WordStartAt(bytes, length, j)
      {
        if j > s.dataIndex {
          assert SpaceAt(bytes, j);
        } else {
          assert !SpaceAt(bytes, j - 1);
        }
      }
    }
  }

  /** Whether the byte under the cursor is a space, as the word motions read it. */
  method SpaceUnder(w: Widget) returns (space: bool)
    requires w.data.Valid() && w.dataIndex <= w.data.length
    ensures space == SpaceAt(w.data.Bytes(), w.dataIndex)
  {
    space := w.data.contents[w.dataIndex] == SpaceByte;
  }

  /** The loops of _vim_mode_e: 'l' while the cursor is inside the text on a byte whose spaceness is `space`. */
  method SkipForward(w: Widget, space: bool) returns (r: Widget)
    requires w.data.Valid() && w.data.size < SizeModulus
    requires w.kind == W.Prompt && w.dataIndex <= w.data.length
    ensures r == SkipRight(w, w.data.Bytes(), w.data.length, space)
  {
    var length := w.data.length;
    ghost var bytes := w.data.Bytes();
    r := w;
    var moveForward := r.dataIndex < length;
    var spaceUnder := SpaceUnder(r);
    while moveForward && spaceUnder == space
      invariant r.kind == W.Prompt && r.data == w.data && r.dataIndex <= length
      invariant moveForward == (r.dataIndex < length) && spaceUnder == SpaceAt(bytes, r.dataIndex)
      invariant SkipRight(r, bytes, length, space) == SkipRight(w, bytes, length, space)
      decreases length - r.dataIndex
    {
      r := CursorRight(r, length);
      moveForward := r.dataIndex < length;
      spaceUnder := SpaceUnder(r);
    }
  }

  /** The loops of _vim_mode_b: 'h' while the cursor is past the start on a byte whose spaceness is `space`. */
  method SkipBackward(w: Widget, space: bool) returns (r: Widget)
    requires w.data.Valid() && w.kind == W.Prompt && w.dataIndex <= w.data.length
    ensures r == SkipLeft(w, w.data.Bytes(), space)
  {
    ghost var bytes := w.data.Bytes();
    r := w;
    var moveBackward := r.dataIndex > 0;
    var spaceUnder := SpaceUnder(r);
    while moveBackward && spaceUnder == space
      invariant r.kind == W.Prompt && r.data == w.data && r.dataIndex <= w.dataIndex
      invariant moveBackward == (r.dataIndex > 0) && spaceUnder == SpaceAt(bytes, r.dataIndex)
      invariant SkipLeft(r, bytes, space) == SkipLeft(w, bytes, space)
      decreases r.dataIndex
    {
      r := CursorLeft(r);
      moveBackward := r.dataIndex > 0;
      spaceUnder := SpaceUnder(r);
    }
  }

  /**
   * _vim_mode_e, on a prompt.  Any other widget is left alone: the loops
   * of cnc_library.c never end on one (see WordMotionSpinsAsWritten).
   */
  method WordEnd(w: Widget) returns (r: Widget)
    requires w.data.Valid() && w.data.size < SizeModulus
    requires w.kind == W.Prompt ==> w.dataIndex <= w.data.length
    ensures w.kind == W.Prompt ==> r == EndOfWord(w, w.data.Bytes(), w.data.length)
    ensures w.kind != W.Prompt ==> r == w
  {
    if w.kind != W.Prompt {
      return w;
    }
    r := CursorRight(w, w.data.length);
    r := SkipForward(r, true);
    r := SkipForward(r, false);
    r := CursorLeft(r);
  }

  /** _vim_mode_b, on a prompt; any other widget is left alone, as for WordEnd. */
  method WordStart(w: Widget) returns (r: Widget)
    requires w.data.Valid() && w.data.size < SizeModulus
    requires w.kind == W.Prompt ==> w.dataIndex <= w.data.length
    ensures w.kind == W.Prompt ==> r == StartOfWord(w, w.data.Bytes(), w.data.length)
    ensures w.kind != W.Prompt ==> r == w
  {
    if w.kind != W.Prompt {
      return w;
    }
    r := CursorLeft(w);
    r := SkipBackward(r, true);
    r := SkipBackward(r, false);
    if r.dataIndex > 0 {
      r := CursorRight(r, w.data.length);
    }
  }

  /**
   * As written, 'e' and 'b' run their loops on any widget, but 'l' and
   * 'h' move only a prompt's cursor: on a display whose row count is
   * below its text length (or above 0, for 'b') a step changes nothing,
   * the loop guard stays true, and the loop never ends.
   */
  lemma WordMotionSpinsAsWritten(w: Widget, length: nat)
    requires w.kind == W.Display
    ensures w.dataIndex < length ==> CursorRight(w, length) == w
    ensures w.dataIndex > 0 ==> CursorLeft(w) == w
  {
  }

  // ---------------------------------------------------------------------
  // Prompt edits
  // ---------------------------------------------------------------------

  /** _vim_mode_x: on a prompt whose cursor is inside the text, the byte under the cursor goes; the cursor stays. */
  method DeleteUnderCursor(w: Widget)
    requires w.data.Valid()
    modifies w.data, w.data.contents
    ensures w.data.Valid() && w.data.contents == old(w.data.contents) && w.data.size == old(w.data.size)
    ensures w.kind == W.Prompt && w.dataIndex < old(w.data.length) ==>
      && w.data.length == old(w.data.length) - 1
      && w.data.Text() == old(w.data.Text())[..w.dataIndex] + old(w.data.Text())[w.dataIndex + 1..]
    ensures !(w.kind == W.Prompt && w.dataIndex < old(w.data.length)) ==>
      w.data.length == old(w.data.length) && w.data.Bytes() == old(w.data.Bytes())
  {
    if w.kind == W.Prompt && w.dataIndex < w.data.length {
      ghost var before := w.data.Bytes();
      ghost var length := w.data.length;
      var ok := w.data.DeleteChar(w.dataIndex);
      DeletedText(before, length, w.dataIndex);
      assert before[..length][..w.dataIndex] == before[..w.dataIndex];
      assert before[..length][w.dataIndex + 1..] == before[w.dataIndex + 1..length];
    }
  }

  /** One byte put in at `at` of a text of `length` bytes leaves the text with `c` between its two parts. */
  lemma TypedText(before: seq<Byte>, after: seq<Byte>, length: nat, at: nat, c: Byte)
    requires at <= length && length + 1 < |before| && after == InsertedBytes(before, length, at, [c])
    ensures after[..length + 1] == before[..length][..at] + [c] + before[..length][at..]
  {
    InsertedText(before, length, at, [c]);
    assert before[..length][..at] == before[..at] && before[..length][at..] == before[at..length];
  }

  /**
   * _insert_char: on a prompt with room in its buffer, `c` goes in at the
   * cursor (or at the end of the text, if the cursor is past it) and only
   * then the cursor advances; otherwise nothing changes.
   */
  method TypeChar(w: Widget, c: Byte) returns (r: Widget)
    requires w.data.Valid()
    modifies w.data, w.data.contents
    ensures w.data.Valid() && w.data.contents == old(w.data.contents) && w.data.size == old(w.data.size)
    ensures var typed := w.kind == W.Prompt && w.dataIndex < w.data.size && old(w.data.length) < w.data.size;
      && (typed ==>
            && r == AfterType(w) && w.data.length == old(w.data.length) + 1
            && var at := InsertPoint(old(w.data.length), w.dataIndex);
               w.data.Text() == old(w.data.Text())[..at] + [c] + old(w.data.Text())[at..])
      && (!typed ==> r == w && w.data.length == old(w.data.length) && w.data.Bytes() == old(w.data.Bytes()))
  {
    r := w;
    if w.kind == W.Prompt {
      ghost var before := w.data.Bytes();
      ghost var length := w.data.length;
      var n := w.data.InsertChar(w.dataIndex, 1, c);
      if n != 0 {
        var at := InsertPoint(length, w.dataIndex);
        assert Repeat(c, 1) == [c];
        TypedText(before, w.data.Bytes(), length, at, c);
        assert w.data.Text() == w.data.Bytes()[..length + 1];
        r := AfterType(w);
      }
    }
  }

  /**
   * _delete_char: on a prompt with the cursor past the start, the byte
   * before the cursor goes and the cursor and view step back; refused,
   * with nothing changed, when the buffer refuses the deletion.
   */
  method Backspace(w: Widget) returns (r: Widget)
    requires w.data.Valid()
    modifies w.data, w.data.contents
    ensures w.data.Valid() && w.data.contents == old(w.data.contents) && w.data.size == old(w.data.size)
    ensures var erased := w.kind == W.Prompt && w.dataIndex > 0 && old(w.data.length) > 0 && w.dataIndex - 1 <= old(w.data.length);
      && (erased ==>
            && r == AfterBackspace(w) && w.data.length == old(w.data.length) - 1
            && w.data.Bytes() == DeletedBytes(old(w.data.Bytes()), old(w.data.length), w.dataIndex - 1))
      && (!erased ==> r == w && w.data.length == old(w.data.length) && w.data.Bytes() == old(w.data.Bytes()))
    ensures w.kind == W.Prompt && 0 < w.dataIndex <= old(w.data.length) ==>
      w.data.Text() == old(w.data.Text())[..w.dataIndex - 1] + old(w.data.Text())[w.dataIndex..]
  {
    r := w;
    if w.kind == W.Prompt && w.dataIndex > 0 {
      ghost var before := w.data.Bytes();
      ghost var length := w.data.length;
      var ok := w.data.DeleteChar(w.dataIndex - 1);
      if ok {
        r := AfterBackspace(w);
        if w.dataIndex <= length {
          DeletedText(before, length, w.dataIndex - 1);
          assert before[..length][..w.dataIndex - 1] == before[..w.dataIndex - 1];
          assert before[..length][w.dataIndex..] == before[w.dataIndex..length];
        }
      }
    }
  }

  // ---------------------------------------------------------------------
  // The terminal
  // ---------------------------------------------------------------------

  // KindsOf, HeightsOf, FocusOf, CanFocusOf and WithFocus are the projections
  // TerminalRules defines as Kinds, Heights, FocusFlags, CanFocusFlags and
  // WithFlags, taken here over this generation's widget record; they mean
  // the same and differ only in the widget type.

  /** The widgets' kinds, as TerminalRules.Kinds. */
  function KindsOf(ws: seq<Widget>): (r: seq<W.WidgetType>)
    ensures |r| == |ws| && forall i :: 0 <= i < |ws| ==> r[i] == ws[i].kind
  {
    seq(|ws|, i requires 0 <= i < |ws| => ws[i].kind)
  }

  /** The widgets' heights, as TerminalRules.Heights. */
  function HeightsOf(ws: seq<Widget>): (r: seq<nat>)
    ensures |r| == |ws| && forall i :: 0 <= i < |ws| ==> r[i] == ws[i].height
  {
    seq(|ws|, i requires 0 <= i < |ws| => ws[i].height)
  }

  /** The widgets' has_focus flags, as TerminalRules.FocusFlags. */
  function FocusOf(ws: seq<Widget>): (r: seq<bool>)
    ensures |r| == |ws| && forall i :: 0 <= i < |ws| ==> r[i] == ws[i].hasFocus
  {
    seq(|ws|, i requires 0 <= i < |ws| => ws[i].hasFocus)
  }

  /** The widgets' can_focus flags, as TerminalRules.CanFocusFlags. */
  function CanFocusOf(ws: seq<Widget>): (r: seq<bool>)
    ensures |r| == |ws| && forall i :: 0 <= i < |ws| ==> r[i] == ws[i].canFocus
  {
    seq(|ws|, i requires 0 <= i < |ws| => ws[i].canFocus)
  }

  /** The widgets with their has_focus flags replaced by `flags`, as TerminalRules.WithFlags. */
  function WithFocus(ws: seq<Widget>, flags: seq<bool>): (r: seq<Widget>)
    requires |flags| == |ws|
    ensures |r| == |ws| && forall k :: 0 <= k < |ws| ==> r[k] == ws[k].(hasFocus := flags[k])
  {
    seq(|ws|, k requires 0 <= k < |ws| => ws[k].(hasFocus := flags[k]))
  }

  /** Whether cnc_terminal_focus_widget gets past its guard for the widget at `target`. */
  predicate TakesFocus(ws: seq<Widget>, target: nat)
    requires target < |ws|
  {
    ws[target].canFocus && !ws[target].hasFocus
  }

  /** cnc_terminal_focus_widget on the widget list. */
  function FocusApplied(ws: seq<Widget>, target: nat): seq<Widget>
    requires target < |ws|
  {
    if TakesFocus(ws, target) then WithFocus(ws, R.Refocused(FocusOf(ws), target)) else ws
  }

  /** A two-row widget without focus, appended last, adds two rows and no focus. */
  lemma AppendedWidget(ws: seq<Widget>, w: Widget, focused: Option<nat>)
    requires w.height == 2 && !w.hasFocus && T.FocusOk(FocusOf(ws), focused)
    ensures R.Sum(HeightsOf(ws + [w])) == R.Sum(HeightsOf(ws)) + 2
    ensures T.FocusOk(FocusOf(ws + [w]), focused)
  {
    assert HeightsOf(ws + [w]) == HeightsOf(ws) + [2];
    assert (HeightsOf(ws) + [2])[..|ws|] == HeightsOf(ws);
    assert FocusOf(ws + [w]) == FocusOf(ws) + [false];
    T.FocusOkAppend(FocusOf(ws), focused);
  }

  /**
   * cnc_terminal_focus_widget touches has_focus flags only; past its
   * guard, and with at most one focused widget before, the target is the
   * only focused widget after.
   */
  lemma FocusAppliedIsOnlyFocus(ws: seq<Widget>, target: nat)
    requires target < |ws| && R.AtMostOne(FocusOf(ws))
    ensures |FocusApplied(ws, target)| == |ws|
    ensures forall k :: 0 <= k < |ws| ==> FocusApplied(ws, target)[k] == ws[k].(hasFocus := FocusApplied(ws, target)[k].hasFocus)
    ensures !TakesFocus(ws, target) ==> FocusApplied(ws, target) == ws
    ensures TakesFocus(ws, target) ==> forall k :: 0 <= k < |ws| ==> (FocusApplied(ws, target)[k].hasFocus <==> k == target)
    ensures R.AtMostOne(FocusOf(FocusApplied(ws, target)))
  {
    if TakesFocus(ws, target) {
      R.RefocusedIsOnlyFocus(FocusOf(ws), target);
      var r := FocusApplied(ws, target);
      assert forall k :: 0 <= k < |ws| ==> FocusOf(r)[k] == R.Refocused(FocusOf(ws), target)[k];
    }
  }

  /**
   * The loop and the two flag writes of cnc_terminal_focus_widget past its
   * guard: the first other focused widget loses the focus and the target
   * takes it.
   */
  method MoveFocus(ws: seq<Widget>, target: nat) returns (r: seq<Widget>)
    requires target < |ws| && R.AtMostOne(FocusOf(ws)) && TakesFocus(ws, target)
    ensures r == FocusApplied(ws, target)
  {
    ghost var flags := FocusOf(ws);
    FocusAppliedIsOnlyFocus(ws, target);
    var i := 0;
    while i < |ws| && !(i != target && ws[i].hasFocus)
      invariant 0 <= i <= |ws|
      invariant forall j :: 0 <= j < i && j != target ==> !flags[j]
    {
      i := i + 1;
    }
    T.FirstOtherIs(flags, target, i);
    r := ws;
    if i < |r| {
      r := r[i := r[i].(hasFocus := false)];
    }
    r := r[target := r[target].(hasFocus := true)];
    var e := FocusApplied(ws, target);
    assert |r| == |e|;
    forall k | 0 <= k < |r|
      ensures r[k] == e[k]
    {
    }
  }

  /** The first loop of cnc_terminal_focus_next: the index of the focused widget, or -1. */
  method FocusedIndexOf(ws: seq<Widget>) returns (f: int)
    ensures f == R.FirstFocused(FocusOf(ws), 0)
  {
    var i := 0;
    while i < |ws| && !ws[i].hasFocus
      invariant 0 <= i <= |ws|
      invariant forall j :: 0 <= j < i ==> !ws[j].hasFocus
    {
      i := i + 1;
    }
    T.FirstFocusedIs(FocusOf(ws), i);
    f := if i < |ws| then i else -1;
  }

  /** The second loop of cnc_terminal_focus_next: how many places after `f` the first focusable widget lies. */
  method FocusableStepOf(ws: seq<Widget>, f: int) returns (s: Option<nat>)
    requires -1 <= f < |ws|
    ensures s == R.FocusStep(CanFocusOf(ws), f, 1)
  {
    ghost var cf := CanFocusOf(ws);
    var step := 1;
    while step <= |ws|
      invariant 1 <= step <= |ws| + 1
      invariant R.FocusStep(cf, f, step) == R.FocusStep(cf, f, 1)
    {
      if ws[R.Slot(f, step, |ws|)].canFocus {
        return Some(step);
      }
      step := step + 1;
    }
    return None;
  }

  /** The counters of the layout loop after `i` widgets: the next display's number and the rows the displays took. */
  predicate DisplaysBefore(kinds: seq<W.WidgetType>, rows: nat, i: nat, setDisplay: nat, displayHeight: nat)
    requires R.LayoutFits(kinds, rows) && i <= |kinds|
  {
    var d := R.DisplayCount(kinds[..i]);
    d < R.DisplayCount(kinds) ==> setDisplay == d + 1 && displayHeight == d * R.Share(kinds, rows)
  }

  /**
   * One widget of the layout loop of cnc_terminal_setup_widgets: an info
   * or prompt keeps its height; a display takes a share of the rows left,
   * and the last display whatever the earlier ones left over.
   */
  method NextHeight(kinds: seq<W.WidgetType>, heights: seq<nat>, rows: nat, tlw: nat, mlw: nat, i: nat, setDisplay: nat, displayHeight: nat)
    returns (h: nat, setDisplay': nat, displayHeight': nat)
    requires |heights| == |kinds| && i < |kinds|
    requires mlw == R.DisplayCount(kinds) && tlw == R.TwoLineCount(kinds) && rows >= 2 * tlw + 3 * mlw
    requires DisplaysBefore(kinds, rows, i, setDisplay, displayHeight)
    ensures h == R.LaidOut(kinds, heights, rows)[i]
    ensures DisplaysBefore(kinds, rows, i + 1, setDisplay', displayHeight')
  {
    ghost var q := R.Share(kinds, rows);
    ghost var d := R.DisplayCount(kinds[..i]);
    T.LaidOutStep(kinds, heights, rows, i);
    h, setDisplay', displayHeight' := heights[i], setDisplay, displayHeight;
    if kinds[i] == W.Display {
      assert q == (rows - 2 * tlw) / mlw;
      R.MulSucc(d, q);
      if setDisplay < mlw {
        h := (rows - 2 * tlw) / mlw;
        displayHeight' := displayHeight + h;
        setDisplay' := setDisplay + 1;
      } else {
        h := rows - 2 * tlw - displayHeight;
      }
    }
  }

  /**
   * `r` is `ws` stacked with the heights `hs`: widget k keeps all but its
   * frame, starts on the row after the rows of the widgets before it, has
   * height hs[k] and spans the `cols` columns.
   */
  predicate Stacked(ws: seq<Widget>, r: seq<Widget>, hs: seq<nat>, cols: SizeT)
  {
    |r| == |ws| == |hs| && forall k :: 0 <= k < |ws| ==> StackedAt(ws[k], r[k], hs, k, cols)
  }

  /** Widget k of a stack: `v` is `w` moved to the row after the first k heights of `hs`, with height hs[k] and width `cols`. */
  predicate StackedAt(w: Widget, v: Widget, hs: seq<nat>, k: nat, cols: SizeT)
  {
    && k < |hs| && v.originRow == 1 + R.Sum(hs[..k]) && v.height == hs[k]
    && v == w.(originRow := v.originRow, height := v.height, width := cols)
  }

  /** One widget of the layout: it starts after the rows before it and ends within the screen. */
  lemma StackStep(hs: seq<nat>, rows: nat, i: nat)
    requires i < |hs| && R.Sum(hs) <= rows
    ensures R.Sum(hs[..i + 1]) == R.Sum(hs[..i]) + hs[i] && R.Sum(hs[..i]) + hs[i] <= rows
  {
    R.SumStep(hs, i);
    R.SumPrefix(hs, i + 1);
  }

  /**
   * The layout loop of cnc_terminal_setup_widgets over `ws`: each widget
   * gets the next free row, its laid-out height and the full width.
   */
  method ArrangeWidgets(ws: seq<Widget>, rows: SizeT, cols: SizeT, tlw: nat, mlw: nat) returns (r: seq<Widget>)
    requires mlw == R.DisplayCount(KindsOf(ws)) && tlw == R.TwoLineCount(KindsOf(ws)) && 2 * tlw + 3 * mlw <= rows <= T.MaxScreen
    requires forall i :: 0 <= i < |ws| && ws[i].kind != W.Display ==> ws[i].height == 2
    ensures R.LayoutFits(KindsOf(ws), rows)
    ensures Stacked(ws, r, R.LaidOut(KindsOf(ws), HeightsOf(ws), rows), cols)
  {
    var kinds := KindsOf(ws);
    var heights := HeightsOf(ws);
    ghost var hs := R.LaidOut(kinds, heights, rows);
    R.LayoutFillsScreen(kinds, heights, rows);
    r := ws;
    var setDisplay := 1;
    var displayHeight := 0;
    var globalRow := 1;
    var i := 0;
    assert kinds[..0] == [] && hs[..0] == [];
    while i < |ws|
      invariant 0 <= i <= |ws| && |r| == |ws|
      invariant forall k :: 0 <= k < i ==> StackedAt(ws[k], r[k], hs, k, cols)
      invariant forall k :: i <= k < |ws| ==> r[k] == ws[k]
      invariant globalRow == 1 + R.Sum(hs[..i])
      invariant DisplaysBefore(kinds, rows, i, setDisplay, displayHeight)
    {
      var h;
      h, setDisplay, displayHeight := NextHeight(kinds, heights, rows, tlw, mlw, i, setDisplay, displayHeight);
      r, globalRow := StackNext(ws, hs, rows, cols, i, r, globalRow, h);
      i := i + 1;
    }
  }

  /** The placing step of the layout loop: widget i goes to `globalRow` with height `h`, and the next free row is below it. */
  method StackNext(ws: seq<Widget>, ghost hs: seq<nat>, rows: nat, cols: SizeT, i: nat, r: seq<Widget>, globalRow: nat, h: nat)
    returns (r': seq<Widget>, globalRow': nat)
    requires i < |ws| == |r| == |hs| && R.Sum(hs) <= rows <= T.MaxScreen && h == hs[i]
    requires forall k :: 0 <= k < i ==> StackedAt(ws[k], r[k], hs, k, cols)
    requires forall k :: i <= k < |ws| ==> r[k] == ws[k]
    requires globalRow == 1 + R.Sum(hs[..i])
    ensures |r'| == |ws| && globalRow' == 1 + R.Sum(hs[..i + 1])
    ensures forall k :: 0 <= k < i + 1 ==> StackedAt(ws[k], r'[k], hs, k, cols)
    ensures forall k :: i + 1 <= k < |ws| ==> r'[k] == ws[k]
  {
    StackStep(hs, rows, i);
    var placed := ws[i].(originRow := globalRow, height := h, width := cols);
    assert StackedAt(ws[i], placed, hs, i, cols);
    r' := r[i := placed];
    globalRow' := globalRow + h;
  }

  /**
   * Stacked widgets follow each other with no gap or overlap, keep their
   * kinds and focus flags, and take the rows of `hs` between them.
   */
  lemma StackedViews(ws: seq<Widget>, r: seq<Widget>, hs: seq<nat>, cols: SizeT)
    requires Stacked(ws, r, hs, cols)
    ensures HeightsOf(r) == hs && KindsOf(r) == KindsOf(ws) && FocusOf(r) == FocusOf(ws) && CanFocusOf(r) == CanFocusOf(ws)
    ensures forall k :: 0 <= k < |r| - 1 ==> r[k + 1].originRow == r[k].originRow + r[k].height
  {
    forall k | 0 <= k < |r| - 1
      ensures r[k + 1].originRow == r[k].originRow + r[k].height
    {
      assert StackedAt(ws[k], r[k], hs, k, cols) && StackedAt(ws[k + 1], r[k + 1], hs, k + 1, cols);
      R.SumStep(hs, k);
    }
    assert forall k :: 0 <= k < |r| ==> StackedAt(ws[k], r[k], hs, k, cols);
  }

  /** A cnc_terminal of this generation, with the widgets as values and focused_widget as an index. */
  class Terminal {
    var scrRows: SizeT
    var scrCols: SizeT
    var canChangeMode: bool
    var canChangeFocus: bool
    var mode: R.Mode
    var widgets: seq<Widget>
    var focused: Option<nat>

    /** The fields no operation here changes. */
    function Settings(): (SizeT, SizeT, bool, bool)
      reads this
    {
      (scrRows, scrCols, canChangeMode, canChangeFocus)
    }

    /**
     * The screen fits a winsize, info and prompt widgets are two rows
     * high, the widgets fit the screen's rows, and focused_widget agrees
     * with the has_focus flags.
     */
    predicate Valid()
      reads this
    {
      && 0 < scrRows <= T.MaxScreen && 0 < scrCols <= T.MaxScreen
      && (forall i :: 0 <= i < |widgets| && widgets[i].kind != W.Display ==> widgets[i].height == 2)
      && R.Sum(HeightsOf(widgets)) <= scrRows
      && T.FocusOk(FocusOf(widgets), focused)
    }

    /**
     * cnc_terminal_init past its I/O: a screen of `rows` by `cols`, no
     * widgets, no focus, both switches on and Command mode.
     */
    constructor (rows: SizeT, cols: SizeT)
      requires 0 < rows <= T.MaxScreen && 0 < cols <= T.MaxScreen
      ensures Valid()
      ensures scrRows == rows && scrCols == cols && widgets == [] && focused.None?
      ensures canChangeMode && canChangeFocus && mode == R.CommandMode
    {
      scrRows, scrCols := rows, cols;
      canChangeMode, canChangeFocus := true, true;
      mode := R.CommandMode;
      widgets := [];
      focused := None;
    }

    /** cnc_terminal_set_mode: takes effect only while can_change_mode is set. */
    method SetMode(m: R.Mode)
      requires Valid()
      modifies this
      ensures Valid() && widgets == old(widgets) && focused == old(focused) && Settings() == old(Settings())
      ensures mode == if canChangeMode then m else old(mode)
    {
      if !canChangeMode {
        return;
      }
      mode := m;
    }

    /** cnc_terminal_focused_widget: the first widget with has_focus, which is focused_widget. */
    method FocusedWidget() returns (r: Option<nat>)
      requires Valid()
      ensures r == focused
      ensures r.Some? <==> R.FirstFocused(FocusOf(widgets), 0) >= 0
      ensures r.Some? ==> r.value == R.FirstFocused(FocusOf(widgets), 0)
    {
      var f := FocusedIndexOf(widgets);
      r := if f >= 0 then Some(f) else None;
    }

    /** cnc_terminal_focus_widget on the widget at `target`. */
    method FocusWidget(target: nat)
      requires Valid() && target < |widgets|
      modifies this
      ensures Valid() && mode == old(mode) && Settings() == old(Settings())
      ensures widgets == FocusApplied(old(widgets), target)
      ensures focused == if TakesFocus(old(widgets), target) then Some(target) else old(focused)
    {
      if !widgets[target].canFocus || widgets[target].hasFocus {
        return;
      }
      FocusAppliedIsOnlyFocus(widgets, target);
      var r := MoveFocus(widgets, target);
      assert HeightsOf(r) == HeightsOf(widgets);
      widgets, focused := r, Some(target);
    }

    /** cnc_terminal_focus_next: the nearest focusable widget after the focused one, cyclically. */
    method FocusNext()
      requires Valid()
      modifies this
      ensures Valid() && mode == old(mode) && Settings() == old(Settings())
      ensures !canChangeFocus ==> widgets == old(widgets) && focused == old(focused)
      ensures canChangeFocus ==>
        var f := R.FirstFocused(FocusOf(old(widgets)), 0);
        var s := R.FocusStep(CanFocusOf(old(widgets)), f, 1);
        && (s.None? ==> widgets == old(widgets) && focused == old(focused))
        && (s.Some? ==>
              var k := R.Slot(f, s.value, |old(widgets)|);
              widgets == FocusApplied(old(widgets), k)
              && focused == if TakesFocus(old(widgets), k) then Some(k) else old(focused))
    {
      if !canChangeFocus {
        return;
      }
      var f := FocusedIndexOf(widgets);
      var s := FocusableStepOf(widgets, f);
      if s.Some? {
        FocusWidget(R.Slot(f, s.value, |widgets|));
      }
    }

    /** The rows the widgets take, as the loop of cnc_terminal_add_widget sums them. */
    method HeightSum() returns (height: nat)
      ensures height == R.Sum(HeightsOf(widgets))
    {
      height := 0;
      var i := 0;
      while i < |widgets|
        invariant 0 <= i <= |widgets|
        invariant height == R.Sum(HeightsOf(widgets)[..i])
      {
        R.SumStep(HeightsOf(widgets), i);
        height := height + widgets[i].height;
        i := i + 1;
      }
      assert HeightsOf(widgets)[..i] == HeightsOf(widgets);
    }

    /**
     * cnc_terminal_add_widget: a new widget of `kind` over a buffer of
     * `bufferSize` bytes is kept only if its two rows still fit the
     * screen; it then goes last and takes the focus.
     */
    method AddWidget(kind: Kind, bufferSize: nat) returns (r: Option<nat>)
      requires Valid()
      modifies this
      ensures Valid() && mode == old(mode) && Settings() == old(Settings())
      ensures r.None? <==> R.Sum(HeightsOf(old(widgets))) + 2 > scrRows
      ensures r.None? ==> widgets == old(widgets) && focused == old(focused)
      ensures r.Some? ==>
        && r.value == |old(widgets)| && |widgets| == r.value + 1
        && fresh(widgets[r.value].data) && widgets[r.value].data.size == bufferSize
        && widgets == FocusApplied(old(widgets) + [Initial(kind, widgets[r.value].data)], r.value)
        && (focused == if kind != W.Info then r else old(focused))
    {
      var w := Init(kind, bufferSize);
      var height := HeightSum();
      if w.height + height > scrRows {
        return None;
      }
      AppendedWidget(widgets, w, focused);
      widgets := widgets + [w];
      var n := |widgets| - 1;
      FocusAppliedIsOnlyFocus(widgets, n);
      FocusWidget(n);
      r := Some(n);
    }

    /** The first loop of cnc_terminal_setup_widgets: the displays and the info and prompt widgets. */
    method CountKinds() returns (tlw: nat, mlw: nat)
      ensures mlw == R.DisplayCount(KindsOf(widgets)) && tlw == R.TwoLineCount(KindsOf(widgets))
    {
      tlw, mlw := 0, 0;
      var i := 0;
      ghost var kinds := KindsOf(widgets);
      while i < |widgets|
        invariant 0 <= i <= |widgets|
        invariant mlw == R.DisplayCount(kinds[..i]) && tlw + mlw == i
      {
        R.DisplayCountStep(kinds, i);
        if widgets[i].kind == W.Display {
          mlw := mlw + 1;
        } else {
          tlw := tlw + 1;
        }
        i := i + 1;
      }
      assert kinds[..i] == kinds;
    }

    /**
     * cnc_terminal_setup_widgets: fails when the screen is too short, and
     * otherwise stacks the widgets from row 1 with the laid-out heights
     * (those of R.LaidOut) over the whole width.
     */
    method SetupWidgets() returns (ok: bool)
      requires Valid()
      modifies this
      ensures Valid() && mode == old(mode) && focused == old(focused) && Settings() == old(Settings())
      ensures ok <==> R.LayoutFits(KindsOf(old(widgets)), scrRows)
      ensures !ok ==> widgets == old(widgets)
      ensures ok ==> Stacked(old(widgets), widgets, R.LaidOut(KindsOf(old(widgets)), HeightsOf(old(widgets)), scrRows), scrCols)
    {
      var tlw, mlw := CountKinds();
      if scrRows < 2 * tlw + 3 * mlw {
        return false;
      }
      ghost var ws := widgets;
      var r := ArrangeWidgets(widgets, scrRows, scrCols, tlw, mlw);
      ghost var hs := R.LaidOut(KindsOf(ws), HeightsOf(ws), scrRows);
      StackedViews(ws, r, hs, scrCols);
      R.LayoutFillsScreen(KindsOf(ws), HeightsOf(ws), scrRows);
      R.LayoutHeights(KindsOf(ws), HeightsOf(ws), scrRows);
      widgets := r;
      return true;
    }
  }
}
