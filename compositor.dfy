/**
 * The screen compositor of ct_update (src/lib/cnc_terminal.c) without its
 * I/O: the colour codes a display may carry, the emit helpers as bytes
 * appended to the screen buffer, the one-line rendering of titles, infos
 * and prompts, and the word-wrap pass that splits a display's tokens
 * into rows.
 */
module Compositor {
  import opened Basics
  import opened TermToken
  import opened TokenBuffer
  import opened Widget
  import opened TerminalRules

  // ---------------------------------------------------------------------
  // Colour codes (_ct_color_code_to_color)
  // ---------------------------------------------------------------------

  /** What a colour code sets: nothing (0), the row's background (1) or its foreground (2). */
  datatype ColorOp = NoColorOp | SetBg(color: Token) | SetFg(color: Token)

  /**
   * _ct_color_code_to_color: a foreground code sets the foreground, a
   * background code the background, both to the table entry of that
   * code, which is the token ctt_parse_value builds (ForegroundCodes,
   * BackgroundCodes); any other code sets nothing.
   */
  function ColorCodeToColor(code: Value): (r: ColorOp)
    ensures r.SetFg? <==> BlackFg <= code <= WhiteFg
    ensures r.SetBg? <==> BlackBg <= code <= WhiteBg
  {
    if BlackFg <= code <= WhiteFg then SetFg(AnsiTable[code - 236])
    else if BlackBg <= code <= WhiteBg then SetBg(AnsiTable[code - 238])
    else NoColorOp
  }

  /** A foreground code selects the token ctt_parse_value builds for it, whose value is the code. */
  lemma ForegroundCodes(code: Value)
    requires ColorCodeToColor(code).SetFg?
    ensures ColorCodeToColor(code).color == ParseValue(code) && ParseValue(code).value == code
  {
    ForegroundValues();
    ParseValueFindsEntry(code - 236);
  }

  /** A background code selects the token ctt_parse_value builds for it, whose value is the code. */
  lemma BackgroundCodes(code: Value)
    requires ColorCodeToColor(code).SetBg?
    ensures ColorCodeToColor(code).color == ParseValue(code) && ParseValue(code).value == code
  {
    BackgroundValues();
    ParseValueFindsEntry(code - 238);
  }

  /** Every colour entry of the table, written after C_COL, selects itself: foregrounds as op 2, backgrounds as op 1. */
  lemma TableColorsRoundTrip(i: nat)
    requires 21 <= i < 37
    ensures i < 29 ==> ColorCodeToColor(AnsiTable[i].value) == SetFg(AnsiTable[i])
    ensures 29 <= i ==> ColorCodeToColor(AnsiTable[i].value) == SetBg(AnsiTable[i])
    ensures AnsiTable[i].kind == AnsiStyle && AnsiTable[i].width == 0
  {
    if i < 29 {
      ForegroundValues();
    } else {
      BackgroundValues();
    }
    TableLayout();
    TableEntriesShape();
  }

  // ---------------------------------------------------------------------
  // Emit helpers (_ct_render_*), as the bytes they append
  // ---------------------------------------------------------------------

  /** The columns _ct_render_data counts: the width of every token, whatever its type. */
  function RawWidth(ts: seq<Token>): nat
  {
    if ts == [] then 0 else RawWidth(ts[..|ts| - 1]) + ts[|ts| - 1].width
  }

  /** The bytes _ct_render_append_token writes for each token in turn. */
  function Emitted(ts: seq<Token>): seq<Byte>
  {
    if ts == [] then [] else Emitted(ts[..|ts| - 1]) + Payload(ts[|ts| - 1])
  }

  /** The tokens from `start` up to `end` (exclusive); none when `end` does not pass `start`. */
  function Span(c: seq<Token>, start: nat, end: nat): seq<Token>
    requires end <= |c|
  {
    if start < end then c[start..end] else []
  }

  /** The token of a blank column, C_SPC (see SpaceTokenIsParsed). */
  const SpaceToken: Token := Token(Char, 1, 1, Space, Pad([Space]))
  /** The box-drawing line of a title's border, U+2500 (see LineTokenIsParsed). */
  const LineToken: Token := Token(Utf8, 1, 3, LineChar, Pad([0xE2, 0x94, 0x80]))

  /** _ct_render_empty_row: `n` spaces. */
  function EmptyRow(n: nat): (r: seq<Byte>)
    ensures |r| == n
    ensures forall i :: 0 <= i < n ==> r[i] == Space
  {
    if n == 0 then [] else EmptyRow(n - 1) + [Space]
  }

  /** _ct_render_enter: carriage return, line feed. */
  const EnterBytes: seq<Byte> := [Return, Enter]

  /** _ct_render_color_set */
  function ColorSet(bg: Token, fg: Token): seq<Byte>
  {
    Payload(bg) + Payload(fg)
  }

  /** _ct_render_color_reset: the KS_RST___ sequence, ESC [ 0 m (see ResetIsParsed). */
  const ColorReset: seq<Byte> := [Escape, Csi, 0x30, 0x6D]

  /** _ct_render_border_row: `n` line tokens. */
  function BorderRow(n: nat): seq<Byte>
  {
    Emitted(Repeat(LineToken, n))
  }

  /**
   * _ct_render_data: the tokens from `start` up to `end` (exclusive),
   * then spaces up to `rowWidth` columns.  The C code pads with
   * `row_width - width` in size_t, so the tokens must not be wider than
   * the row.
   */
  function RenderData(c: seq<Token>, start: nat, end: nat, rowWidth: nat): seq<Byte>
    requires end <= |c| && RawWidth(Span(c, start, end)) <= rowWidth
  {
    Emitted(Span(c, start, end)) + EmptyRow(rowWidth - RawWidth(Span(c, start, end)))
  }

  /** The reset sequence is the bytes of the KS_RST___ token. */
  lemma ResetIsParsed()
    ensures ColorReset == Payload(ParseValue(StyleReset))
  {
    assert AnsiTable[10].value == StyleReset;
    ParseValueFindsEntry(10);
  }

  /** The space token is what ctt_parse_value gives for C_SPC. */
  lemma SpaceTokenIsParsed()
    ensures SpaceToken == ParseValue(Space) && Payload(SpaceToken) == [Space]
  {
    LookupIffKey(Space);
    TableKeysRange();
  }

  /** The line token is what ctt_parse_value gives for U+2500: one column, three bytes. */
  lemma LineTokenIsParsed()
    ensures LineToken == ParseValue(LineChar) && Payload(LineToken) == [0xE2, 0x94, 0x80]
  {
    LookupIffKey(LineChar);
    TableKeysRange();
    assert LineChar / 4096 == 2 && LineChar / 64 == 148 && LineChar % 64 == 0;
    assert Utf8Bytes(LineChar) == [0xE2, 0x94, 0x80];
  }

  lemma {:induction false} RawWidthAppend(a: seq<Token>, b: seq<Token>)
    ensures RawWidth(a + b) == RawWidth(a) + RawWidth(b)
    decreases |b|
  {
    if b == [] {
      assert a + b == a;
    } else {
      assert (a + b)[..|a + b| - 1] == a + b[..|b| - 1];
      RawWidthAppend(a, b[..|b| - 1]);
    }
  }

  lemma {:induction false} EmittedAppend(a: seq<Token>, b: seq<Token>)
    ensures Emitted(a + b) == Emitted(a) + Emitted(b)
    decreases |b|
  {
    if b == [] {
      assert a + b == a;
    } else {
      var front, last := b[..|b| - 1], b[|b| - 1];
      assert (a + b)[..|a + b| - 1] == a + front;
      assert (a + b)[|a + b| - 1] == last;
      EmittedAppend(a, front);
      calc {
        Emitted(a + b);
        Emitted(a + front) + Payload(last);
        (Emitted(a) + Emitted(front)) + Payload(last);
        Emitted(a) + (Emitted(front) + Payload(last));
      }
    }
  }

  /** `n` space tokens take `n` columns and write `n` spaces. */
  lemma {:induction false} SpaceTokens(n: nat)
    ensures RawWidth(Repeat(SpaceToken, n)) == n
    ensures Emitted(Repeat(SpaceToken, n)) == EmptyRow(n)
  {
    var r := Repeat(SpaceToken, n);
    if n == 0 {
      assert r == [];
    } else {
      var p := Repeat(SpaceToken, n - 1);
      assert r[..n - 1] == p && r[n - 1] == SpaceToken;
      SpaceTokens(n - 1);
      SpaceTokenIsParsed();
      assert RawWidth(r) == RawWidth(p) + 1;
      assert Emitted(r) == EmptyRow(n - 1) + [Space];
      assert EmptyRow(n) == EmptyRow(n - 1) + [Space];
    }
  }

  /** A border row is `n` columns wide and `n` times the three bytes of U+2500. */
  lemma {:induction false} BorderRowShape(n: nat)
    ensures RawWidth(Repeat(LineToken, n)) == n
    ensures |BorderRow(n)| == 3 * n
    ensures n > 0 ==> BorderRow(n) == BorderRow(n - 1) + [0xE2, 0x94, 0x80]
  {
    LineTokenIsParsed();
    if n > 0 {
      BorderRowShape(n - 1);
      assert Repeat(LineToken, n)[..n - 1] == Repeat(LineToken, n - 1);
    }
  }

  /**
   * A rendered data row is exactly `rowWidth` columns: it is what the
   * shown tokens followed by the padding spaces write, and those tokens
   * together are `rowWidth` wide.
   */
  lemma RenderDataFillsRow(c: seq<Token>, start: nat, end: nat, rowWidth: nat)
    requires end <= |c| && RawWidth(Span(c, start, end)) <= rowWidth
    ensures var shown := Span(c, start, end) + Repeat(SpaceToken, rowWidth - RawWidth(Span(c, start, end)));
      RenderData(c, start, end, rowWidth) == Emitted(shown) && RawWidth(shown) == rowWidth
  {
    var pad := Repeat(SpaceToken, rowWidth - RawWidth(Span(c, start, end)));
    SpaceTokens(|pad|);
    EmittedAppend(Span(c, start, end), pad);
    RawWidthAppend(Span(c, start, end), pad);
  }

  /** Taking one more token adds its bytes and its width. */
  lemma SpanStep(c: seq<Token>, start: nat, i: nat)
    requires start <= i < |c|
    ensures Emitted(c[start..i + 1]) == Emitted(c[start..i]) + Payload(c[i])
    ensures RawWidth(c[start..i + 1]) == RawWidth(c[start..i]) + c[i].width
  {
    assert c[start..i + 1][..i - start] == c[start..i];
  }

  /** _ct_render_data's loop over the buffer's tokens, then its padding. */
  method RenderDataOf(b: Buffer, start: nat, end: nat, rowWidth: nat) returns (out: seq<Byte>)
    requires b.Valid() && end <= b.size
    requires RawWidth(Span(b.Contents(), start, end)) <= rowWidth
    ensures out == RenderData(b.Contents(), start, end, rowWidth)
  {
    var c := b.Contents();
    out := [];
    var width := 0;
    if start < end {
      out, width := EmitTokens(c, start, end);
    }
    out := out + EmptyRow(rowWidth - width);
  }

  /** The token loop of _ct_render_data: the bytes and the columns of the tokens from `start` to `end`. */
  method EmitTokens(c: seq<Token>, start: nat, end: nat) returns (out: seq<Byte>, width: nat)
    requires start <= end <= |c|
    ensures out == Emitted(c[start..end]) && width == RawWidth(c[start..end])
  {
    out := [];
    width := 0;
    var i := start;
    while i < end
      invariant start <= i <= end
      invariant out == Emitted(c[start..i]) && width == RawWidth(c[start..i])
    {
      SpanStep(c, start, i);
      out := out + Payload(c[i]);
      width := width + c[i].width;
      i := i + 1;
    }
  }

  /** _ct_render_border_row's loop. */
  method BorderRowOf(n: nat) returns (out: seq<Byte>)
    ensures out == BorderRow(n)
  {
    out := [];
    var i := 0;
    while i < n
      invariant i <= n && out == BorderRow(i)
    {
      assert Repeat(LineToken, i + 1)[..i] == Repeat(LineToken, i);
      out := out + Payload(LineToken);
      i := i + 1;
    }
  }

  // ---------------------------------------------------------------------
  // Honest widths
  // ---------------------------------------------------------------------

  /**
   * Only text tokens take columns.  cb_data_width counts CHAR and UTF8
   * tokens only while _ct_render_data counts every token, and the two
   * agree on tokens like these.
   */
  predicate Honest(ts: seq<Token>)
  {
    forall i :: 0 <= i < |ts| ==> IsText(ts[i]) || ts[i].width == 0
  }

  /** Every token ctt_parse_value builds is honest: table entries and invalid tokens are zero-width. */
  lemma ParsedTokensAreHonest(v: Uint32)
    ensures Honest([ParseValue(v)])
  {
    LookupIffKey(v);
    if v in TableKeys {
      var i :| 0 <= i < |AnsiTable| && AnsiTable[i].value == v;
      ParseValueFindsEntry(i);
      TableEntriesShape();
    } else {
      ParseValueShape(v);
    }
  }

  /** On honest tokens the two width counts agree. */
  lemma {:induction false} RawWidthIsWidthSum(ts: seq<Token>)
    requires Honest(ts)
    ensures RawWidth(ts) == WidthSum(ts)
  {
    if ts != [] {
      RawWidthIsWidthSum(ts[..|ts| - 1]);
    }
  }

  // ---------------------------------------------------------------------
  // One-line widgets: titles, infos and prompts
  // ---------------------------------------------------------------------

  /** C_ENT, C_RET and C_USC as ctt_parse_value builds them (see ControlTokensAreParsed). */
  const NewlineToken: Token := Token(Char, 0, 1, Enter, Pad([Enter]))
  const ReturnToken: Token := Token(Char, 0, 1, Return, Pad([Return]))
  const BlankToken: Token := Token(Char, 0, 1, Blank, Pad([Blank]))

  lemma ControlTokensAreParsed()
    ensures NewlineToken == ParseValue(Enter) && ReturnToken == ParseValue(Return) && BlankToken == ParseValue(Blank)
  {
    TableKeysRange();
    LookupIffKey(Enter);
    LookupIffKey(Return);
    LookupIffKey(Blank);
  }

  /**
   * A token as a one-line widget keeps it: ct_update replaces every token
   * equal to C_ENT by a space and every token equal to C_RET by C_USC.
   */
  function OneLine(t: Token): Token
  {
    if TermToken.Equal(t, NewlineToken) then SpaceToken
    else if TermToken.Equal(t, ReturnToken) then BlankToken
    else t
  }

  function Flattened(c: seq<Token>): (r: seq<Token>)
    ensures |r| == |c|
  {
    seq(|c|, i requires 0 <= i < |c| => OneLine(c[i]))
  }

  /**
   * After the replacement no line break is left, a second update changes
   * nothing more, and honest tokens stay honest.
   */
  lemma OneLineClearsBreaks(t: Token)
    ensures !TermToken.Equal(OneLine(t), NewlineToken) && !TermToken.Equal(OneLine(t), ReturnToken)
    ensures OneLine(OneLine(t)) == OneLine(t)
    ensures Honest([t]) ==> Honest([OneLine(t)])
  {
    assert SpaceToken.value != Enter && SpaceToken.value != Return;
    assert BlankToken.value != Enter && BlankToken.value != Return;
  }

  /** The two cb_replace calls of ct_update on a one-line widget's buffer. */
  method FlattenLineBreaks(b: Buffer)
    requires b.Valid()
    modifies b.data
    ensures b.Valid() && b.Contents() == Flattened(old(b.Contents()))
  {
    var replacedNewlines := b.Replace(NewlineToken, SpaceToken);
    var replacedReturns := b.Replace(ReturnToken, BlankToken);
  }

  /**
   * The do-while loop of ct_update that picks u_bound for a one-line
   * widget, as the end (u_bound + 1) where it stops: from the end of the
   * data it steps back one token at a time until the tokens from `index`
   * fit `lineWidth` columns; an empty window always fits.
   */
  function FitEnd(c: seq<Token>, index: nat, lineWidth: nat, e: nat): (r: nat)
    requires index <= e <= |c|
    ensures index <= r <= e
    decreases e
  {
    if e == index || WindowWidth(c, index, e - index) <= lineWidth then e
    else FitEnd(c, index, lineWidth, e - 1)
  }

  /** An empty window takes no columns. */
  lemma EmptyWindow(c: seq<Token>, index: nat)
    ensures WindowWidth(c, index, 0) == 0
  {
    if index < |c| {
      assert c[index..index + Clamped(|c|, index, 0)] == [];
    }
  }

  /** A window from `index` to `e` that does not fit is not empty, and FitEnd goes on one token shorter. */
  lemma FitEndStep(c: seq<Token>, index: nat, lineWidth: nat, e: nat)
    requires index <= e <= |c| && WindowWidth(c, index, e - index) > lineWidth
    ensures index < e && FitEnd(c, index, lineWidth, e) == FitEnd(c, index, lineWidth, e - 1)
  {
    EmptyWindow(c, index);
  }

  /**
   * The window FitEnd picks fits, and every longer window up to `e` does
   * not (counts `n` of tokens from `index`).
   */
  lemma {:induction false} FitEndIsLargest(c: seq<Token>, index: nat, lineWidth: nat, e: nat)
    requires index <= e <= |c|
    ensures var r := FitEnd(c, index, lineWidth, e);
      index <= r <= e && WindowWidth(c, index, r - index) <= lineWidth
      && forall n :: r - index < n <= e - index ==> WindowWidth(c, index, n) > lineWidth
    decreases e
  {
    if e == index {
      EmptyWindow(c, index);
    } else if WindowWidth(c, index, e - index) > lineWidth {
      FitEndIsLargest(c, index, lineWidth, e - 1);
    }
  }

  /**
   * u_bound for a one-line widget over buffer `b`: it counts down from
   * the last token and asks cb_data_width each time.  With `index` 0 the
   * first token must fit, or u_bound would wrap past zero.
   */
  method UpperBound(b: Buffer, index: nat, lineWidth: nat) returns (u: nat)
    requires b.Valid() && 0 < b.size && index <= b.size
    requires index == 0 ==> WindowWidth(b.Contents(), 0, 1) <= lineWidth
    ensures u + 1 == FitEnd(b.Contents(), index, lineWidth, b.size)
  {
    ghost var c := b.Contents();
    u := b.size - 1;
    var width := WidthFrom(b, index, u + 1 - index);
    while width > lineWidth
      invariant index <= u + 1 <= |c|
      invariant width == WindowWidth(c, index, u + 1 - index)
      invariant FitEnd(c, index, lineWidth, |c|) == FitEnd(c, index, lineWidth, u + 1)
      decreases u
    {
      FitEndStep(c, index, lineWidth, u + 1);
      assert u > 0;
      u := u - 1;
      width := WidthFrom(b, index, u + 1 - index);
    }
  }

  /** cb_data_width on a buffer that holds data is WindowWidth of its tokens. */
  method WidthFrom(b: Buffer, start: nat, count: nat) returns (w: nat)
    requires b.Valid() && 0 < b.size
    ensures w == WindowWidth(b.Contents(), start, count)
  {
    w := b.DataWidth(start, count);
  }


  /** The prompt symbols of Insert and Command mode, ">> " and "_? ". */
  const PromptIns: seq<Byte> := [0x3E, 0x3E, 0x20]
  const PromptCmd: seq<Byte> := [0x5F, 0x3F, 0x20]

  /** An info widget with no colours of its own looks at the focused widget, which must then exist. */
  predicate NeedsFocusedKind(w: Widget)
  {
    w.kind == Info && w.colors.bg.value == KeyNone && w.colors.fg.value == KeyNone
  }

  /**
   * The colours ct_update draws a one-line widget with: its own bg and fg
   * when either is set; otherwise a prompt uses its main colours while
   * focused and its alternative ones when not, an info its alternative
   * colours while a display has the focus, and a title its main colours.
   */
  function LineColors(w: Widget, focusedKind: Option<WidgetType>): (Token, Token)
    requires NeedsFocusedKind(w) ==> focusedKind.Some?
  {
    var cs := w.colors;
    if cs.bg.value != KeyNone || cs.fg.value != KeyNone then (cs.bg, cs.fg)
    else if w.kind == Prompt then (if w.hasFocus then (cs.bgMain, cs.fgMain) else (cs.bgAlt, cs.fgAlt))
    else if w.kind == Info then (if focusedKind.value == Display then (cs.bgAlt, cs.fgAlt) else (cs.bgMain, cs.fgMain))
    else (cs.bgMain, cs.fgMain)
  }

  /** Columns before the text: the prompt symbol. */
  function Padding(kind: WidgetType): nat
  {
    if kind == Prompt then PromptPad else 0
  }

  /** line_width: the whole row, or for a prompt the row less the symbol and one column for the cursor. */
  function LineWidth(kind: WidgetType, cols: nat): nat
    requires kind == Prompt ==> cols > PromptPad
  {
    if kind == Prompt then cols - (PromptPad + 1) else cols
  }

  /** With the view at the first token, that token must fit the line (otherwise u_bound wraps past zero). */
  predicate FirstFits(c: seq<Token>, index: nat, lineWidth: nat)
  {
    index > 0 || |c| == 0 || WindowWidth(c, 0, 1) <= lineWidth
  }

  /** What ct_update needs to draw a one-line widget over the tokens `c`. */
  predicate OneLineReady(w: Widget, c: seq<Token>, focusedKind: Option<WidgetType>, cols: nat)
  {
    w.kind != Display && (NeedsFocusedKind(w) ==> focusedKind.Some?) && (w.kind == Prompt ==> cols > PromptPad)
    && w.index <= |c| && Honest(c) && FirstFits(c, w.index, LineWidth(w.kind, cols))
  }

  /** The tokens shown on a one-line widget, from the view's first token to FitEnd, take at most the line's width. */
  lemma FitShown(c: seq<Token>, index: nat, lineWidth: nat)
    requires index <= |c| && Honest(c)
    ensures RawWidth(Span(c, index, FitEnd(c, index, lineWidth, |c|))) <= lineWidth
  {
    var r := FitEnd(c, index, lineWidth, |c|);
    FitEndIsLargest(c, index, lineWidth, |c|);
    if index < r {
      assert c[index..index + Clamped(|c|, index, r - index)] == Span(c, index, r);
      assert Honest(Span(c, index, r));
      RawWidthIsWidthSum(Span(c, index, r));
    }
  }

  /** The text of a non-empty one-line widget: the fitting tokens, padded to the row. */
  function ShownText(c: seq<Token>, index: nat, lineWidth: nat, rowWidth: nat): seq<Byte>
    requires index <= |c| && Honest(c) && lineWidth <= rowWidth
  {
    FitShown(c, index, lineWidth);
    RenderData(c, index, FitEnd(c, index, lineWidth, |c|), rowWidth)
  }

  /**
   * The bytes ct_update writes for a title, info or prompt whose buffer,
   * line breaks already replaced, holds `c`: a blank separator row
   * (not for a title), the colours, the prompt symbol, the text, the
   * reset, a border under a title, and a line break unless the widget is
   * the last one.
   */
  function OneLineBytes(w: Widget, c: seq<Token>, mode: Mode, focusedKind: Option<WidgetType>, cols: nat, last: bool): seq<Byte>
    requires OneLineReady(w, c, focusedKind, cols)
  {
    var colors := LineColors(w, focusedKind);
    var rowWidth := cols - Padding(w.kind);
    (if w.kind != Title then EmptyRow(cols) + EnterBytes else [])
    + ColorSet(colors.0, colors.1)
    + (if w.kind == Prompt then (if mode == InsertMode then PromptIns else PromptCmd) else [])
    + (if |c| == 0 then EmptyRow(rowWidth) else ShownText(c, w.index, LineWidth(w.kind, cols), rowWidth))
    + ColorReset
    + (if w.kind == Title then BorderRow(cols) else [])
    + (if last then [] else EnterBytes)
  }

  /** The text of a one-line widget over buffer `b`: blanks when empty, else the fitting tokens padded to the row. */
  method LineText(b: Buffer, index: nat, lineWidth: nat, rowWidth: nat) returns (text: seq<Byte>)
    requires b.Valid() && index <= b.size && Honest(b.Contents()) && lineWidth <= rowWidth
    requires FirstFits(b.Contents(), index, lineWidth)
    ensures b.size == 0 ==> text == EmptyRow(rowWidth)
    ensures b.size > 0 ==> text == ShownText(b.Contents(), index, lineWidth, rowWidth)
    ensures text == if |b.Contents()| == 0 then EmptyRow(rowWidth) else ShownText(b.Contents(), index, lineWidth, rowWidth)
  {
    if b.size == 0 {
      return EmptyRow(rowWidth);
    }
    var u := UpperBound(b, index, lineWidth);
    FitShown(b.Contents(), index, lineWidth);
    text := RenderDataOf(b, index, u + 1, rowWidth);
  }

  /** OneLineBytes assembled from its text and border parts. */
  lemma OneLineParts(w: Widget, c: seq<Token>, mode: Mode, focusedKind: Option<WidgetType>, cols: nat, last: bool,
                     text: seq<Byte>, border: seq<Byte>)
    requires OneLineReady(w, c, focusedKind, cols)
    requires text == if |c| == 0 then EmptyRow(cols - Padding(w.kind)) else ShownText(c, w.index, LineWidth(w.kind, cols), cols - Padding(w.kind))
    requires border == if w.kind == Title then BorderRow(cols) else []
    ensures OneLineBytes(w, c, mode, focusedKind, cols, last) == (if w.kind != Title then EmptyRow(cols) + EnterBytes else [])
      + ColorSet(LineColors(w, focusedKind).0, LineColors(w, focusedKind).1)
      + (if w.kind == Prompt then (if mode == InsertMode then PromptIns else PromptCmd) else [])
      + text + ColorReset + border + (if last then [] else EnterBytes)
  {
  }

  /** ct_update on one title, info or prompt: replace its line breaks, then append its row. */
  method RenderOneLine(w: Widget, mode: Mode, focusedKind: Option<WidgetType>, cols: nat, last: bool) returns (out: seq<Byte>)
    requires w.buffer.Valid()
    requires OneLineReady(w, Flattened(w.buffer.Contents()), focusedKind, cols)
    modifies w.buffer.data
    ensures w.buffer.Valid() && w.buffer.Contents() == Flattened(old(w.buffer.Contents()))
    ensures out == OneLineBytes(w, w.buffer.Contents(), mode, focusedKind, cols, last)
  {
    FlattenLineBreaks(w.buffer);
    out := OneLineRow(w, mode, focusedKind, cols, last);
  }

  /** The row ct_update appends for a one-line widget whose line breaks are already replaced. */
  method OneLineRow(w: Widget, mode: Mode, focusedKind: Option<WidgetType>, cols: nat, last: bool) returns (out: seq<Byte>)
    requires w.buffer.Valid() && OneLineReady(w, w.buffer.Contents(), focusedKind, cols)
    ensures out == OneLineBytes(w, w.buffer.Contents(), mode, focusedKind, cols, last)
  {
    ghost var c := w.buffer.Contents();
    var colors := LineColors(w, focusedKind);
    var rowWidth: nat := cols - Padding(w.kind);
    var lineWidth := LineWidth(w.kind, cols);
    var border: seq<Byte> := [];
    if w.kind == Title {
      border := BorderRowOf(cols);
    }
    var text := LineText(w.buffer, w.index, lineWidth, rowWidth);
    OneLineParts(w, c, mode, focusedKind, cols, last, text, border);
    out := (if w.kind != Title then EmptyRow(cols) + EnterBytes else [])
      + ColorSet(colors.0, colors.1)
      + (if w.kind == Prompt then (if mode == InsertMode then PromptIns else PromptCmd) else [])
      + text
      + ColorReset
      + border
      + (if last then [] else EnterBytes);
  }


  // ---------------------------------------------------------------------
  // The word-wrap pass over a display (calculation phase of ct_update)
  // ---------------------------------------------------------------------

  /** ct_row_info: the first and last token index of a row and the colours set on it. */
  datatype RowInfo = RowInfo(first: nat, last: nat, bg: Token, fg: Token)

  /** The loop variables of the pass: counter, the row being built, last_space_index and the rows stored so far. */
  datatype WrapState = WrapState(counter: nat, row: RowInfo, lastSpace: nat, rows: seq<RowInfo>)

  /** CTT_PV(0): the colour a row gets back after a newline (value 0, so it is never drawn). */
  const NoRowColor: Token := Token(Char, 0, 1, 0, Pad([0]))

  /** Everything zero, as the pass starts. */
  const StartState: WrapState := WrapState(0, RowInfo(0, 0, ZeroToken, ZeroToken), 0, [])

  /** Row `row` draws token `i` (_ct_render_data draws first through last, both included). */
  predicate Shows(row: RowInfo, i: int)
  {
    row.first <= i <= row.last
  }

  /**
   * The row a newline at `counter` closes and the index the next row
   * starts at, as ct_update writes it: the row ends before the newline,
   * except at index 0, where it is 0, and the next row starts two past
   * the row's last index.
   */
  function NewlineCloseAsWritten(row: RowInfo, counter: nat): (r: (RowInfo, nat))
    ensures r.0 == row.(last := r.0.last) && r.1 == r.0.last + 2
    ensures r.1 == if counter > 0 then counter + 1 else 2
  {
    var closed := row.(last := if counter > 0 then counter - 1 else 0);
    (closed, closed.last + 2)
  }

  /**
   * A display whose first token is a newline: the row it closes draws the
   * newline itself, and the next row starts at 2, so token 1 is in no row.
   */
  lemma LeadingNewlineAsWritten(row: RowInfo)
    requires row.first == 0
    ensures Shows(NewlineCloseAsWritten(row, 0).0, 0)
    ensures !Shows(NewlineCloseAsWritten(row, 0).0, 1) && NewlineCloseAsWritten(row, 0).1 > 1
  {
  }

  /**
   * The newline rule as intended: the closed row holds exactly the tokens
   * from its first up to the newline, and the next row starts right after
   * the newline. At index 0 the closed row is the empty range 1..0.
   */
  function NewlineClose(row: RowInfo, counter: nat): (r: (RowInfo, nat))
    requires row.first <= counter
    ensures forall i :: Shows(r.0, i) <==> row.first <= i < counter
    ensures r.0.first >= row.first && r.0.last < r.1 == counter + 1
    ensures r.0.bg == row.bg && r.0.fg == row.fg
  {
    if counter > 0 then (row.(last := counter - 1), counter + 1) else (row.(first := 1, last := 0), 1)
  }

  /** Both rules agree everywhere but at index 0. */
  lemma NewlineCloseAgrees(row: RowInfo, counter: nat)
    requires 0 < counter && row.first <= counter
    ensures NewlineClose(row, counter) == NewlineCloseAsWritten(row, counter)
  {
  }

  /**
   * What the pass needs of the display's tokens: they end in a newline
   * (ct_update appends one when they do not), and no text token is wider
   * than the screen (the pass would stop advancing at it).
   */
  predicate WrapReady(c: seq<Token>, cols: nat)
  {
    |c| > 0 && c[|c| - 1].value == Enter && forall i :: 0 <= i < |c| ==> !IsText(c[i]) || c[i].width <= cols
  }

  /** Facts every state of the pass keeps. */
  predicate WrapInv(c: seq<Token>, s: WrapState)
  {
    s.row.first <= s.counter <= |c| && s.lastSpace <= s.counter && |s.rows| <= s.row.first
  }

  /** The columns of one more token. */
  lemma {:induction false} WindowStep(c: seq<Token>, f: nat, n: nat)
    requires f + n < |c|
    ensures WindowWidth(c, f, n + 1) == WindowWidth(c, f, n) + if IsText(c[f + n]) then c[f + n].width else 0
  {
    assert c[f..f + n + 1][..n] == c[f..f + n];
  }

  /** A longer window is never narrower. */
  lemma WindowMono(c: seq<Token>, f: nat, n: nat, m: nat)
    requires n <= m && f + m <= |c|
    ensures WindowWidth(c, f, n) <= WindowWidth(c, f, m)
  {
    if f < |c| {
      WidthSumBounds(c[f..], n, m);
      assert c[f..][..n] == c[f..f + n] && c[f..][..m] == c[f..f + m];
    } else {
      assert n == 0 && m == 0;
    }
  }

  /** A row only overflows once it holds two tokens: a single token fits the screen. */
  lemma OverflowNeedsTwoTokens(c: seq<Token>, cols: nat, s: WrapState)
    requires WrapReady(c, cols) && WrapInv(c, s) && s.counter < |c|
    ensures WindowWidth(c, s.row.first, s.counter + 1 - s.row.first) > cols ==> s.row.first < s.counter
  {
    if s.row.first == s.counter {
      EmptyWindow(c, s.counter);
      WindowStep(c, s.counter, 0);
    }
  }

  /** The whitespace loop after a wrap: from `k`, the first token that is not a space or tab. */
  function SkipBlanks(c: seq<Token>, k: nat): (r: nat)
    requires k <= |c|
    ensures k <= r <= |c|
    ensures forall i :: k <= i < r ==> IsWhitespace(c[i])
    ensures r < |c| ==> !IsWhitespace(c[r])
    decreases |c| - k
  {
    if k < |c| && IsWhitespace(c[k]) then SkipBlanks(c, k + 1) else k
  }

  /** A row after a colour code: the code sets its background or its foreground, or nothing. */
  function ColoredRow(row: RowInfo, op: ColorOp): (r: RowInfo)
    ensures r.first == row.first && r.last == row.last
  {
    match op
    case SetBg(color) => row.(bg := color)
    case SetFg(color) => row.(fg := color)
    case NoColorOp => row
  }

  /**
   * One turn of the pass at `counter`, with the row measured from its
   * first token through the counter:
   *  - a newline closes the row before it (`NewlineClose`), and the next
   *    row starts after the newline with its colours cleared;
   *  - a row wider than the screen closes at the last whitespace beyond
   *    its first token, and the next row starts after the blanks that
   *    follow it; with no such whitespace it closes before the counter;
   *    the next row keeps the closed row's colours;
   *  - a space or tab is remembered as the last whitespace;
   *  - C_COL applies the colour code after it to the row and skips both.
   */
  function WrapStep(c: seq<Token>, cols: nat, s: WrapState): (r: WrapState)
    requires WrapReady(c, cols) && WrapInv(c, s) && s.counter < |c|
    ensures WrapInv(c, r)
    ensures s.row.first < r.row.first || (s.row.first == r.row.first && s.counter < r.counter)
  {
    var t := c[s.counter];
    var first := s.row.first;
    OverflowNeedsTwoTokens(c, cols, s);
    var width := WindowWidth(c, first, s.counter + 1 - first);
    if t.value == Enter then
      var closing := NewlineClose(s.row, s.counter);
      WrapState(s.counter + 1, closing.0.(first := closing.1, bg := NoRowColor, fg := NoRowColor),
                s.lastSpace, s.rows + [closing.0])
    else if width > cols then
      if s.lastSpace > first then
        var closed := s.row.(last := s.lastSpace - 1);
        var next := SkipBlanks(c, s.lastSpace + 1);
        WrapState(next, closed.(first := next), s.lastSpace, s.rows + [closed])
      else
        var closed := s.row.(last := s.counter - 1);
        WrapState(s.counter, closed.(first := s.counter), s.lastSpace, s.rows + [closed])
    else if IsWhitespace(t) then
      WrapState(s.counter + 1, s.row, s.counter, s.rows)
    else if t.value == ColorInfo then
      var row := ColoredRow(s.row, ColorCodeToColor(c[s.counter + 1].value));
      WrapState(s.counter + 2, row, s.lastSpace, s.rows)
    else
      WrapState(s.counter + 1, s.row, s.lastSpace, s.rows)
  }

  /** The pass from state `s` until the counter reaches the end of the tokens. */
  function Wrapped(c: seq<Token>, cols: nat, s: WrapState): (r: WrapState)
    requires WrapReady(c, cols) && WrapInv(c, s)
    ensures WrapInv(c, r) && r.counter == |c|
    decreases |c| + 1 - s.row.first, |c| - s.counter
  {
    if s.counter >= |c| then s else Wrapped(c, cols, WrapStep(c, cols, s))
  }

  /** The rows_info the pass builds over the tokens `c` on a screen `cols` wide. */
  function WrapRows(c: seq<Token>, cols: nat): seq<RowInfo>
    requires WrapReady(c, cols)
  {
    Wrapped(c, cols, StartState).rows
  }

  /** The whitespace loop after a wrap, over the buffer. */
  method SkipBlanksOf(b: Buffer, k: nat) returns (r: nat)
    requires b.Valid() && k <= b.size
    ensures r == SkipBlanks(b.Contents(), k)
  {
    ghost var c := b.Contents();
    r := k;
    while r < b.size && IsWhitespace(b.data[r])
      invariant k <= r <= b.size
      invariant SkipBlanks(c, r) == SkipBlanks(c, k)
    {
      r := r + 1;
    }
  }

  /** One turn of the calculation loop over the buffer, including the whitespace skip after a wrap. */
  method WrapStepOf(b: Buffer, cols: nat, s: WrapState) returns (r: WrapState)
    requires b.Valid() && WrapReady(b.Contents(), cols) && WrapInv(b.Contents(), s) && s.counter < b.size
    ensures r == WrapStep(b.Contents(), cols, s)
  {
    ghost var c := b.Contents();
    var t := b.data[s.counter];
    assert t == c[s.counter];
    var first := s.row.first;
    var width := b.DataWidth(first, s.counter + 1 - first);
    assert width == WindowWidth(c, first, s.counter + 1 - first);
    if t.value == Enter || width > cols {
      r := BreakRowOf(b, c, cols, s, t, width);
      return;
    }
    if IsWhitespace(t) {
      return WrapState(s.counter + 1, s.row, s.counter, s.rows);
    }
    if t.value == ColorInfo {
      var code := b.data[s.counter + 1];
      assert code == c[s.counter + 1];
      WrapStepAtColor(c, cols, s);
      return WrapState(s.counter + 2, ColoredRow(s.row, ColorCodeToColor(code.value)), s.lastSpace, s.rows);
    }
    return WrapState(s.counter + 1, s.row, s.lastSpace, s.rows);
  }

  /** At a C_COL that fits, the pass applies the colour code after it to the row and skips both tokens. */
  lemma WrapStepAtColor(c: seq<Token>, cols: nat, s: WrapState)
    requires WrapReady(c, cols) && WrapInv(c, s) && s.counter < |c|
    requires c[s.counter].value == ColorInfo && !IsWhitespace(c[s.counter])
    requires WindowWidth(c, s.row.first, s.counter + 1 - s.row.first) <= cols
    ensures s.counter + 1 < |c|
    ensures WrapStep(c, cols, s) == WrapState(s.counter + 2, ColoredRow(s.row, ColorCodeToColor(c[s.counter + 1].value)), s.lastSpace, s.rows)
  {
    assert c[s.counter].value != Enter;
  }

  /** The steps of the pass that close a row: at a newline, and when the row grows wider than the screen. */
  method BreakRowOf(b: Buffer, ghost c: seq<Token>, cols: nat, s: WrapState, t: Token, width: nat) returns (r: WrapState)
    requires b.Valid() && c == b.Contents() && WrapReady(c, cols) && WrapInv(c, s) && s.counter < |c|
    requires t == c[s.counter] && width == WindowWidth(c, s.row.first, s.counter + 1 - s.row.first)
    requires t.value == Enter || width > cols
    ensures r == WrapStep(c, cols, s)
  {
    OverflowNeedsTwoTokens(c, cols, s);
    if t.value == Enter {
      var closing := NewlineClose(s.row, s.counter);
      return WrapState(s.counter + 1, closing.0.(first := closing.1, bg := NoRowColor, fg := NoRowColor),
                       s.lastSpace, s.rows + [closing.0]);
    }
    if s.lastSpace > s.row.first {
      var closed := s.row.(last := s.lastSpace - 1);
      var next := SkipBlanksOf(b, s.lastSpace + 1);
      return WrapState(next, closed.(first := next), s.lastSpace, s.rows + [closed]);
    }
    var closed := s.row.(last := s.counter - 1);
    return WrapState(s.counter, closed.(first := s.counter), s.lastSpace, s.rows + [closed]);
  }

  /** The calculation phase for a display: the rows of its tokens (data_index is their number). */
  method WrapPass(b: Buffer, cols: nat) returns (rows: seq<RowInfo>)
    requires b.Valid() && WrapReady(b.Contents(), cols)
    ensures rows == WrapRows(b.Contents(), cols)
  {
    ghost var c := b.Contents();
    var s := StartState;
    while s.counter < b.size
      invariant WrapInv(c, s)
      invariant Wrapped(c, cols, s) == Wrapped(c, cols, StartState)
      decreases |c| + 1 - s.row.first, |c| - s.counter
    {
      s := WrapStepOf(b, cols, s);
    }
    rows := s.rows;
  }

  // Properties of the pass

  /** Every C_COL is followed by a colour code that takes no columns, as ANSI style tokens do. */
  predicate ColorCodesBlank(c: seq<Token>)
  {
    forall i :: 0 <= i < |c| - 1 && c[i].value == ColorInfo ==> !IsText(c[i + 1]) || c[i + 1].width == 0
  }

  /** Row `r` lies inside the tokens and what it draws takes at most `cols` columns. */
  predicate RowFits(c: seq<Token>, cols: nat, r: RowInfo)
  {
    r.last < |c| && (r.first <= r.last ==> WindowWidth(c, r.first, r.last + 1 - r.first) <= cols)
  }

  /** Each row ends before any later row starts. */
  predicate RowsOrdered(rows: seq<RowInfo>)
  {
    forall j, k :: 0 <= j < k < |rows| ==> rows[j].last < rows[k].first
  }

  /** The stored rows fit and are ordered, they end before the current row, and the current row fits so far. */
  predicate Placed(c: seq<Token>, cols: nat, s: WrapState)
    requires WrapInv(c, s)
  {
    WindowWidth(c, s.row.first, s.counter - s.row.first) <= cols
    && (forall k :: 0 <= k < |s.rows| ==> RowFits(c, cols, s.rows[k]) && s.rows[k].last < s.row.first)
    && RowsOrdered(s.rows)
  }

  /** A turn that closes a fitting row and starts the next one empty keeps the placement. */
  lemma PlacedAfterClose(c: seq<Token>, cols: nat, s: WrapState, closed: RowInfo, t: WrapState)
    requires WrapInv(c, s) && Placed(c, cols, s) && WrapInv(c, t)
    requires RowFits(c, cols, closed) && s.row.first <= closed.first && closed.last < t.row.first
    requires t.rows == s.rows + [closed] && s.row.first <= t.row.first == t.counter
    ensures Placed(c, cols, t)
  {
    EmptyWindow(c, t.counter);
    forall j, k | 0 <= j < k < |t.rows|
      ensures t.rows[j].last < t.rows[k].first
    {
      if k == |s.rows| {
        assert t.rows[j] == s.rows[j];
      }
    }
  }

  /** A turn that stays on the row and keeps it within the screen keeps the placement. */
  lemma PlacedAfterAdvance(c: seq<Token>, cols: nat, s: WrapState, t: WrapState)
    requires WrapInv(c, s) && Placed(c, cols, s) && WrapInv(c, t)
    requires t.rows == s.rows && t.row.first == s.row.first
    requires WindowWidth(c, t.row.first, t.counter - t.row.first) <= cols
    ensures Placed(c, cols, t)
  {
  }

  lemma NewlinePlaced(c: seq<Token>, cols: nat, s: WrapState)
    requires WrapReady(c, cols) && WrapInv(c, s) && s.counter < |c| && Placed(c, cols, s)
    requires c[s.counter].value == Enter
    ensures Placed(c, cols, WrapStep(c, cols, s))
  {
    var closing := NewlineClose(s.row, s.counter);
    assert closing.0.first <= closing.0.last ==> closing.0.last + 1 - closing.0.first == s.counter - s.row.first;
    PlacedAfterClose(c, cols, s, closing.0, WrapStep(c, cols, s));
  }

  lemma WrapAtSpacePlaced(c: seq<Token>, cols: nat, s: WrapState)
    requires WrapReady(c, cols) && WrapInv(c, s) && s.counter < |c| && Placed(c, cols, s)
    requires c[s.counter].value != Enter && WindowWidth(c, s.row.first, s.counter + 1 - s.row.first) > cols
    requires s.lastSpace > s.row.first
    ensures Placed(c, cols, WrapStep(c, cols, s))
  {
    var closed := s.row.(last := s.lastSpace - 1);
    WrapAtSpaceStep(c, cols, s);
    AtSpaceRowFits(c, cols, s);
    PlacedAfterClose(c, cols, s, closed, WrapStep(c, cols, s));
  }

  /** The row closed at the last space is part of the placed row, so it fits the screen. */
  lemma AtSpaceRowFits(c: seq<Token>, cols: nat, s: WrapState)
    requires WrapInv(c, s) && Placed(c, cols, s) && s.lastSpace > s.row.first
    ensures RowFits(c, cols, s.row.(last := s.lastSpace - 1))
  {
    var first := s.row.first;
    WindowMono(c, first, s.lastSpace - first, s.counter - first);
  }

  /** The turn that wraps at the last space: the row ends before the space and the next starts past the blanks. */
  lemma {:induction false} WrapAtSpaceStep(c: seq<Token>, cols: nat, s: WrapState)
    requires WrapReady(c, cols) && WrapInv(c, s) && s.counter < |c|
    requires c[s.counter].value != Enter && WindowWidth(c, s.row.first, s.counter + 1 - s.row.first) > cols
    requires s.lastSpace > s.row.first
    ensures WrapStep(c, cols, s).counter == SkipBlanks(c, s.lastSpace + 1) == WrapStep(c, cols, s).row.first
    ensures WrapStep(c, cols, s).rows == s.rows + [s.row.(last := s.lastSpace - 1)]
  {
  }

  lemma WrapInWordPlaced(c: seq<Token>, cols: nat, s: WrapState)
    requires WrapReady(c, cols) && WrapInv(c, s) && s.counter < |c| && Placed(c, cols, s)
    requires c[s.counter].value != Enter && WindowWidth(c, s.row.first, s.counter + 1 - s.row.first) > cols
    requires s.lastSpace <= s.row.first
    ensures Placed(c, cols, WrapStep(c, cols, s))
  {
    OverflowNeedsTwoTokens(c, cols, s);
    var closed := s.row.(last := s.counter - 1);
    assert WrapStep(c, cols, s) == WrapState(s.counter, closed.(first := s.counter), s.lastSpace, s.rows + [closed]);
    PlacedAfterClose(c, cols, s, closed, WrapStep(c, cols, s));
  }

  lemma {:induction false} AdvancePlaced(c: seq<Token>, cols: nat, s: WrapState)
    requires WrapReady(c, cols) && ColorCodesBlank(c) && WrapInv(c, s) && s.counter < |c| && Placed(c, cols, s)
    requires c[s.counter].value != Enter && WindowWidth(c, s.row.first, s.counter + 1 - s.row.first) <= cols
    ensures Placed(c, cols, WrapStep(c, cols, s))
  {
    AdvanceStep(c, cols, s);
    if !IsWhitespace(c[s.counter]) && c[s.counter].value == ColorInfo {
      WindowStep(c, s.row.first, s.counter + 1 - s.row.first);
    }
    PlacedAfterAdvance(c, cols, s, WrapStep(c, cols, s));
  }

  /** A step that fits moves the counter past the token, or past a colour code and its colour, and keeps the rows. */
  lemma {:induction false} AdvanceStep(c: seq<Token>, cols: nat, s: WrapState)
    requires WrapReady(c, cols) && WrapInv(c, s) && s.counter < |c|
    requires c[s.counter].value != Enter && WindowWidth(c, s.row.first, s.counter + 1 - s.row.first) <= cols
    ensures WrapStep(c, cols, s).rows == s.rows && WrapStep(c, cols, s).row.first == s.row.first
    ensures WrapStep(c, cols, s).counter
      == if !IsWhitespace(c[s.counter]) && c[s.counter].value == ColorInfo then s.counter + 2 else s.counter + 1
  {
  }

  lemma WrapStepPlaced(c: seq<Token>, cols: nat, s: WrapState)
    requires WrapReady(c, cols) && ColorCodesBlank(c) && WrapInv(c, s) && s.counter < |c| && Placed(c, cols, s)
    ensures Placed(c, cols, WrapStep(c, cols, s))
  {
    if c[s.counter].value == Enter {
      NewlinePlaced(c, cols, s);
    } else if WindowWidth(c, s.row.first, s.counter + 1 - s.row.first) > cols {
      if s.lastSpace > s.row.first {
        WrapAtSpacePlaced(c, cols, s);
      } else {
        WrapInWordPlaced(c, cols, s);
      }
    } else {
      AdvancePlaced(c, cols, s);
    }
  }

  lemma {:induction false} WrappedPlaced(c: seq<Token>, cols: nat, s: WrapState)
    requires WrapReady(c, cols) && ColorCodesBlank(c) && WrapInv(c, s) && Placed(c, cols, s)
    ensures Placed(c, cols, Wrapped(c, cols, s))
    decreases |c| + 1 - s.row.first, |c| - s.counter
  {
    if s.counter < |c| {
      WrapStepPlaced(c, cols, s);
      WrappedPlaced(c, cols, WrapStep(c, cols, s));
    }
  }

  /**
   * The rows the pass builds lie inside the tokens, come in order without
   * overlapping, and each draws at most a screen width of columns.
   */
  lemma WrapRowsPlaced(c: seq<Token>, cols: nat)
    requires WrapReady(c, cols) && ColorCodesBlank(c)
    ensures forall k :: 0 <= k < |WrapRows(c, cols)| ==> RowFits(c, cols, WrapRows(c, cols)[k])
    ensures RowsOrdered(WrapRows(c, cols))
  {
    EmptyWindow(c, 0);
    WrappedPlaced(c, cols, StartState);
  }

  /** No C_COL is followed by a newline, so the pass reaches the final newline and closes the last row. */
  predicate ColorCodesBeforeText(c: seq<Token>)
  {
    forall i :: 0 <= i < |c| - 1 && c[i].value == ColorInfo ==> c[i + 1].value != Enter
  }

  /** Token `i` is drawn by one of the rows. */
  predicate Drawn(rows: seq<RowInfo>, i: int)
  {
    exists k :: 0 <= k < |rows| && Shows(rows[k], i)
  }

  /** The tokens the pass may leave out of every row: newlines, and the spaces and tabs a line breaks at. */
  predicate Droppable(t: Token)
  {
    t.value == Enter || IsWhitespace(t)
  }

  /**
   * Every token before the current row is drawn or droppable, the last
   * whitespace seen is a space or tab, and the counter has not jumped past
   * the end without closing the last row.
   */
  predicate Covered(c: seq<Token>, s: WrapState)
    requires WrapInv(c, s)
  {
    (s.lastSpace > 0 ==> s.lastSpace < |c| && IsWhitespace(c[s.lastSpace]))
    && (s.counter < |c| || s.row.first == |c|)
    && forall i :: 0 <= i < s.row.first ==> Droppable(c[i]) || Drawn(s.rows, i)
  }

  lemma DrawnAfterClose(rows: seq<RowInfo>, closed: RowInfo)
    ensures forall i :: Drawn(rows, i) || Shows(closed, i) ==> Drawn(rows + [closed], i)
  {
    forall i | Drawn(rows, i) || Shows(closed, i)
      ensures Drawn(rows + [closed], i)
    {
      if Shows(closed, i) {
        assert (rows + [closed])[|rows|] == closed;
      } else {
        var k :| 0 <= k < |rows| && Shows(rows[k], i);
        assert (rows + [closed])[k] == rows[k];
      }
    }
  }

  lemma NewlineCovered(c: seq<Token>, cols: nat, s: WrapState)
    requires WrapReady(c, cols) && WrapInv(c, s) && s.counter < |c| && Covered(c, s)
    requires c[s.counter].value == Enter
    ensures Covered(c, WrapStep(c, cols, s))
  {
    var closing := NewlineClose(s.row, s.counter);
    DrawnAfterClose(s.rows, closing.0);
  }

  lemma WrapAtSpaceCovered(c: seq<Token>, cols: nat, s: WrapState)
    requires WrapReady(c, cols) && WrapInv(c, s) && s.counter < |c| && Covered(c, s)
    requires c[s.counter].value != Enter && WindowWidth(c, s.row.first, s.counter + 1 - s.row.first) > cols
    requires s.lastSpace > s.row.first
    ensures Covered(c, WrapStep(c, cols, s))
  {
    var closed := s.row.(last := s.lastSpace - 1);
    var next := SkipBlanks(c, s.lastSpace + 1);
    assert WrapStep(c, cols, s) == WrapState(next, closed.(first := next), s.lastSpace, s.rows + [closed]);
    DrawnAfterClose(s.rows, closed);
  }

  lemma WrapInWordCovered(c: seq<Token>, cols: nat, s: WrapState)
    requires WrapReady(c, cols) && WrapInv(c, s) && s.counter < |c| && Covered(c, s)
    requires c[s.counter].value != Enter && WindowWidth(c, s.row.first, s.counter + 1 - s.row.first) > cols
    requires s.lastSpace <= s.row.first
    ensures Covered(c, WrapStep(c, cols, s))
  {
    OverflowNeedsTwoTokens(c, cols, s);
    var closed := s.row.(last := s.counter - 1);
    assert WrapStep(c, cols, s) == WrapState(s.counter, closed.(first := s.counter), s.lastSpace, s.rows + [closed]);
    DrawnAfterClose(s.rows, closed);
  }

  lemma AdvanceCovered(c: seq<Token>, cols: nat, s: WrapState)
    requires WrapReady(c, cols) && ColorCodesBeforeText(c) && WrapInv(c, s) && s.counter < |c| && Covered(c, s)
    requires c[s.counter].value != Enter && WindowWidth(c, s.row.first, s.counter + 1 - s.row.first) <= cols
    ensures Covered(c, WrapStep(c, cols, s))
  {
    assert s.counter < |c| - 1;
  }

  lemma WrapStepCovered(c: seq<Token>, cols: nat, s: WrapState)
    requires WrapReady(c, cols) && ColorCodesBeforeText(c) && WrapInv(c, s) && s.counter < |c| && Covered(c, s)
    ensures Covered(c, WrapStep(c, cols, s))
  {
    if c[s.counter].value == Enter {
      NewlineCovered(c, cols, s);
    } else if WindowWidth(c, s.row.first, s.counter + 1 - s.row.first) > cols {
      if s.lastSpace > s.row.first {
        WrapAtSpaceCovered(c, cols, s);
      } else {
        WrapInWordCovered(c, cols, s);
      }
    } else {
      AdvanceCovered(c, cols, s);
    }
  }

  lemma {:induction false} WrappedCovered(c: seq<Token>, cols: nat, s: WrapState)
    requires WrapReady(c, cols) && ColorCodesBeforeText(c) && WrapInv(c, s) && Covered(c, s)
    ensures Covered(c, Wrapped(c, cols, s))
    decreases |c| + 1 - s.row.first, |c| - s.counter
  {
    if s.counter < |c| {
      WrapStepCovered(c, cols, s);
      WrappedCovered(c, cols, WrapStep(c, cols, s));
    }
  }

  /**
   * No text is lost by wrapping: every token is drawn by some row unless
   * it is a newline or a space or tab the text breaks at.
   */
  lemma WrapRowsCover(c: seq<Token>, cols: nat)
    requires WrapReady(c, cols) && ColorCodesBeforeText(c)
    ensures forall i :: 0 <= i < |c| ==> Droppable(c[i]) || Drawn(WrapRows(c, cols), i)
  {
    WrappedCovered(c, cols, StartState);
  }

  // The pass as written, at a leading newline

  /**
   * ct_update's state after the turn at counter 0 over a leading newline:
   * row 0..0 is stored and the next row starts at 2, one past the counter.
   */
  function LeadingNewlineState(): (r: WrapState)
    ensures r.counter == 1 && r.row.first == 2 && r.lastSpace == 0 && r.rows == [RowInfo(0, 0, ZeroToken, ZeroToken)]
  {
    var closing := NewlineCloseAsWritten(StartState.row, 0);
    WrapState(1, closing.0.(first := closing.1, bg := NoRowColor, fg := NoRowColor), 0, [closing.0])
  }

  /**
   * The turn at counter 1 after a leading newline, as written. The row
   * starts at 2, so the width it measures covers counter - first + 1 = 0
   * tokens in size_t and never exceeds the screen; a newline closes the
   * empty row 2..0 and starts the next at 2.
   */
  function TurnAfterLeadingNewline(c: seq<Token>, cols: nat): (r: WrapState)
    requires WrapReady(c, cols) && |c| > 1 && c[0].value == Enter
    ensures WrapInv(c, r) && r.row.first == 2 && 2 <= r.counter
    ensures 1 <= |r.rows| <= 2 && r.rows[0] == RowInfo(0, 0, ZeroToken, ZeroToken)
    ensures forall k :: 0 <= k < |r.rows| ==> !Shows(r.rows[k], 1)
  {
    var s := LeadingNewlineState();
    var t := c[1];
    if t.value == Enter then
      var closing := NewlineCloseAsWritten(s.row, 1);
      WrapState(2, closing.0.(first := closing.1, bg := NoRowColor, fg := NoRowColor), s.lastSpace, s.rows + [closing.0])
    else if IsWhitespace(t) then
      WrapState(2, s.row, 1, s.rows)
    else if t.value == ColorInfo then
      WrapState(3, ColoredRow(s.row, ColorCodeToColor(c[2].value)), s.lastSpace, s.rows)
    else
      WrapState(2, s.row, s.lastSpace, s.rows)
  }

  /**
   * The rows_info ct_update builds, as written. Past counter 0 both newline
   * rules agree (NewlineCloseAgrees), so tokens that do not start with a
   * newline get the rows of WrapRows; a leading newline is closed by
   * NewlineCloseAsWritten, the turn at 1 follows, and the pass goes on
   * from there.
   */
  function WrapRowsAsWritten(c: seq<Token>, cols: nat): (r: seq<RowInfo>)
    requires WrapReady(c, cols)
    ensures c[0].value == Enter ==> |r| >= 1 && r[0] == RowInfo(0, 0, ZeroToken, ZeroToken)
  {
    if c[0].value != Enter then WrapRows(c, cols)
    else if |c| == 1 then LeadingNewlineState().rows
    else
      var s := TurnAfterLeadingNewline(c, cols);
      WrappedRowsFrom(c, cols, s);
      Wrapped(c, cols, s).rows
  }

  /** One turn keeps the stored rows and adds at most one, which starts no earlier than the current row. */
  lemma WrapStepRowsFrom(c: seq<Token>, cols: nat, s: WrapState)
    requires WrapReady(c, cols) && WrapInv(c, s) && s.counter < |c|
    ensures var r := WrapStep(c, cols, s);
      |s.rows| <= |r.rows| && r.rows[..|s.rows|] == s.rows
      && forall k :: |s.rows| <= k < |r.rows| ==> r.rows[k].first >= s.row.first
  {
    var first := s.row.first;
    OverflowNeedsTwoTokens(c, cols, s);
    if c[s.counter].value == Enter {
      var closing := NewlineClose(s.row, s.counter);
      assert WrapStep(c, cols, s).rows == s.rows + [closing.0];
    } else if WindowWidth(c, first, s.counter + 1 - first) > cols {
      assert WrapStep(c, cols, s).rows == s.rows + [WrapStep(c, cols, s).rows[|s.rows|]];
    } else {
      assert WrapStep(c, cols, s).rows == s.rows;
    }
  }

  /** The whole pass keeps the stored rows, and every row it adds starts no earlier than the row it started on. */
  lemma {:induction false} WrappedRowsFrom(c: seq<Token>, cols: nat, s: WrapState)
    requires WrapReady(c, cols) && WrapInv(c, s)
    ensures var r := Wrapped(c, cols, s);
      |s.rows| <= |r.rows| && r.rows[..|s.rows|] == s.rows
      && forall k :: |s.rows| <= k < |r.rows| ==> r.rows[k].first >= s.row.first
    decreases |c| + 1 - s.row.first, |c| - s.counter
  {
    if s.counter < |c| {
      var t := WrapStep(c, cols, s);
      WrapStepRowsFrom(c, cols, s);
      WrappedRowsFrom(c, cols, t);
      var r := Wrapped(c, cols, t);
      assert r.rows[..|s.rows|] == r.rows[..|t.rows|][..|s.rows|];
    }
  }

  /**
   * The pass as written loses text exactly at a leading newline: on tokens
   * that do not start with a newline every token is drawn or droppable,
   * and after a leading newline no row draws token 1, whatever it is.
   */
  lemma LeadingNewlineLosesToken(c: seq<Token>, cols: nat)
    requires WrapReady(c, cols) && ColorCodesBeforeText(c)
    ensures c[0].value != Enter ==> forall i :: 0 <= i < |c| ==> Droppable(c[i]) || Drawn(WrapRowsAsWritten(c, cols), i)
    ensures c[0].value == Enter && |c| > 1 ==> !Drawn(WrapRowsAsWritten(c, cols), 1)
  {
    if c[0].value != Enter {
      WrapRowsCover(c, cols);
    } else if |c| > 1 {
      var s := TurnAfterLeadingNewline(c, cols);
      WrappedRowsFrom(c, cols, s);
      var rows := WrapRowsAsWritten(c, cols);
      forall k | 0 <= k < |rows|
        ensures !Shows(rows[k], 1)
      {
        if k < |s.rows| {
          assert rows[k] == rows[..|s.rows|][k];
        }
      }
    }
  }

  // ---------------------------------------------------------------------
  // Drawing a display (rendering phase of ct_update)
  // ---------------------------------------------------------------------

  /** What _ct_render_data pads against: the row lies inside the tokens and its tokens' widths sum to at most `cols`. */
  predicate RowDrawable(c: seq<Token>, cols: nat, r: RowInfo)
  {
    r.last < |c| && RawWidth(Span(c, r.first, r.last + 1)) <= cols
  }

  predicate AllDrawable(c: seq<Token>, cols: nat, rows: seq<RowInfo>)
  {
    forall k :: 0 <= k < |rows| ==> RowDrawable(c, cols, rows[k])
  }

  /** On honest tokens a row that fits by the pass's measure also fits as drawn. */
  lemma FittingRowDraws(c: seq<Token>, cols: nat, r: RowInfo)
    requires Honest(c) && RowFits(c, cols, r)
    ensures RowDrawable(c, cols, r)
  {
    if r.first <= r.last {
      var span := c[r.first..r.last + 1];
      assert Span(c, r.first, r.last + 1) == span;
      assert span == c[r.first..r.first + Clamped(|c|, r.first, r.last + 1 - r.first)];
      assert Honest(span) by {
        forall i | 0 <= i < |span|
          ensures IsText(span[i]) || span[i].width == 0
        {
          assert span[i] == c[r.first + i];
        }
      }
      RawWidthIsWidthSum(span);
    }
  }

  /**
   * What a display's tokens must satisfy to be drawn: tokens are honest,
   * no text token is wider than the screen, and colour codes take no columns.
   */
  predicate DisplayReady(c: seq<Token>, cols: nat)
  {
    Honest(c) && ColorCodesBlank(c) && forall i :: 0 <= i < |c| ==> !IsText(c[i]) || c[i].width <= cols
  }

  /**
   * Every row the pass builds over drawable tokens can be drawn: the
   * padding _ct_render_data computes as `row_width - width` never goes
   * below zero.
   */
  lemma WrapRowsDrawable(c: seq<Token>, cols: nat)
    requires DisplayReady(c, cols) && |c| > 0 && c[|c| - 1].value == Enter
    ensures WrapReady(c, cols) && AllDrawable(c, cols, WrapRows(c, cols))
  {
    var rows := WrapRows(c, cols);
    WrapRowsPlaced(c, cols);
    forall k | 0 <= k < |rows|
      ensures RowDrawable(c, cols, rows[k])
    {
      FittingRowDraws(c, cols, rows[k]);
    }
  }

  /**
   * One row of a display: its background and foreground when set (value
   * above 0), its tokens padded to the screen, the reset, and a line break
   * unless it is the frame's last row.
   */
  function RowBytes(c: seq<Token>, r: RowInfo, cols: nat, lastRow: bool): seq<Byte>
  {
    (if r.bg.value > 0 then Payload(r.bg) else []) + (if r.fg.value > 0 then Payload(r.fg) else [])
    + RowText(c, r, cols) + ColorReset + (if lastRow then [] else EnterBytes)
  }

  /**
   * The tokens of a row padded to `cols` columns.  The padding saturates
   * at zero here; on a drawable row it is the `row_width - width` of
   * _ct_render_data (see RowTextIsRenderData).
   */
  function RowText(c: seq<Token>, r: RowInfo, cols: nat): seq<Byte>
  {
    var span := if r.last < |c| then Span(c, r.first, r.last + 1) else [];
    Emitted(span) + EmptyRow(if RawWidth(span) <= cols then cols - RawWidth(span) else 0)
  }

  lemma RowTextIsRenderData(c: seq<Token>, r: RowInfo, cols: nat)
    requires RowDrawable(c, cols, r)
    ensures RowText(c, r, cols) == RenderData(c, r.first, r.last + 1, cols)
  {
  }

  /**
   * The first `n` rows of the frame of a display scrolled to `index`:
   * frame row `k` draws row `index + k` while rows_info has it, and the
   * bytes `blank` after that.
   */
  function FrameRows(c: seq<Token>, rows: seq<RowInfo>, index: nat, height: nat, cols: nat, blank: seq<Byte>, n: nat): seq<Byte>
    requires n <= height
  {
    if n == 0 then []
    else
      FrameRows(c, rows, index, height, cols, blank, n - 1) + FrameLine(c, rows, index, height, cols, blank, n - 1)
  }

  /** Frame row `k`: row `index + k` while rows_info has it, else `blank`. */
  function FrameLine(c: seq<Token>, rows: seq<RowInfo>, index: nat, height: nat, cols: nat, blank: seq<Byte>, k: nat): seq<Byte>
  {
    if index + k < |rows| then RowBytes(c, rows[index + k], cols, k + 1 == height) else blank
  }

  /**
   * The frame of a display: `height` rows, each a row of text while there
   * is one, then an empty row and a line break (the last frame row included).
   */
  function Frame(c: seq<Token>, rows: seq<RowInfo>, index: nat, height: nat, cols: nat): seq<Byte>
  {
    FrameRows(c, rows, index, height, cols, EmptyRow(cols) + EnterBytes, height)
  }

  /** The rendering loop of a display whose rows are `rows`: its rows of text, then the blank rows. */
  method RenderRows(b: Buffer, rows: seq<RowInfo>, index: nat, height: nat, cols: nat) returns (out: seq<Byte>)
    requires b.Valid() && AllDrawable(b.Contents(), cols, rows)
    ensures out == Frame(b.Contents(), rows, index, height, cols)
  {
    var blank := EmptyRow(cols) + EnterBytes;
    var row;
    out, row := RenderTextRows(b, rows, index, height, cols, blank);
    var rest := RenderBlankRows(blank, height - row);
    FrameRowsBlanks(b.Contents(), rows, index, height, cols, blank, row, height);
    out := out + rest;
  }

  /** The first loop of the rendering: the frame rows that rows_info has, from `index` on. */
  method RenderTextRows(b: Buffer, rows: seq<RowInfo>, index: nat, height: nat, cols: nat, blank: seq<Byte>)
    returns (out: seq<Byte>, row: nat)
    requires b.Valid() && AllDrawable(b.Contents(), cols, rows)
    ensures row <= height && (row == height || |rows| <= index + row)
    ensures out == FrameRows(b.Contents(), rows, index, height, cols, blank, row)
  {
    ghost var c := b.Contents();
    out := [];
    row := 0;
    while row < height && index + row < |rows|
      invariant row <= height
      invariant out == FrameRows(c, rows, index, height, cols, blank, row)
      decreases height - row
    {
      var bytes := RowBytesOf(b, rows[index + row], cols, row + 1 == height);
      out := out + bytes;
      row := row + 1;
    }
  }

  /** The second loop of the rendering: `count` blank rows. */
  method RenderBlankRows(blank: seq<Byte>, count: nat) returns (out: seq<Byte>)
    ensures out == Blanks(blank, count) && |out| == count * |blank|
  {
    out := [];
    var row := 0;
    while row < count
      invariant row <= count
      invariant out == Blanks(blank, row) && |out| == row * |blank|
    {
      out := out + blank;
      row := row + 1;
    }
  }

  /** `n` copies of `blank`, one after another. */
  function Blanks(blank: seq<Byte>, n: nat): seq<Byte>
  {
    if n == 0 then [] else Blanks(blank, n - 1) + blank
  }

  /** Past the end of rows_info, every further frame row is `blank`. */
  lemma {:induction false} FrameRowsBlanks(c: seq<Token>, rows: seq<RowInfo>, index: nat, height: nat, cols: nat,
                                           blank: seq<Byte>, n0: nat, n: nat)
    requires n0 <= n <= height && (n0 == n || |rows| <= index + n0)
    ensures FrameRows(c, rows, index, height, cols, blank, n) == FrameRows(c, rows, index, height, cols, blank, n0) + Blanks(blank, n - n0)
    decreases n
  {
    if n > n0 {
      FrameRowsBlanks(c, rows, index, height, cols, blank, n0, n - 1);
      assert FrameLine(c, rows, index, height, cols, blank, n - 1) == blank;
    }
  }

  /** One row of a display, drawn from the buffer. */
  method RowBytesOf(b: Buffer, r: RowInfo, cols: nat, lastRow: bool) returns (out: seq<Byte>)
    requires b.Valid() && RowDrawable(b.Contents(), cols, r)
    ensures out == RowBytes(b.Contents(), r, cols, lastRow)
  {
    var bg := if r.bg.value > 0 then Payload(r.bg) else [];
    var fg := if r.fg.value > 0 then Payload(r.fg) else [];
    var data := RenderDataOf(b, r.first, r.last + 1, cols);
    RowTextIsRenderData(b.Contents(), r, cols);
    var enter := if lastRow then [] else EnterBytes;
    out := bg + fg + data + ColorReset + enter;
  }

  // ---------------------------------------------------------------------
  // ct_update on a display: the pass, then the frame
  // ---------------------------------------------------------------------

  /** How many tokens the newline pushed before the pass scrolls out of a buffer: some only when it is full at its maximum. */
  function NewlineLoss(sh: Shape): (k: nat)
    requires ShapeOk(sh) && |sh.tokens| > 0
    ensures k <= |sh.tokens|
    ensures k > 0 <==> sh.tokens[|sh.tokens| - 1].value != Enter && |sh.tokens| == sh.capacity == sh.maxCapacity
  {
    if sh.tokens[|sh.tokens| - 1].value != Enter && |sh.tokens| == sh.capacity == sh.maxCapacity then Evicted(sh.capacity) else 0
  }

  /**
   * The tokens the pass runs over: the buffer's own when they end in a
   * newline, else the buffer after cb_push of a newline token.
   */
  function WithNewline(sh: Shape): (r: seq<Token>)
    requires ShapeOk(sh) && |sh.tokens| > 0
    ensures |r| > 0 && r[|r| - 1].value == Enter
    ensures sh.tokens[|sh.tokens| - 1].value == Enter ==> r == sh.tokens
    ensures sh.tokens[|sh.tokens| - 1].value != Enter ==> r == sh.tokens[NewlineLoss(sh)..] + [NewlineToken]
  {
    PushKeepsShape(sh, NewlineToken);
    if sh.tokens[|sh.tokens| - 1].value == Enter then sh.tokens else Pushed(sh, NewlineToken).tokens
  }

  /** The capacity after the newline is pushed: grown when the push found the buffer full below its maximum. */
  function NewlineCapacity(sh: Shape): (k: nat)
    requires ShapeOk(sh) && |sh.tokens| > 0
    ensures sh.capacity <= k <= sh.maxCapacity
    ensures k > sh.capacity <==> sh.tokens[|sh.tokens| - 1].value != Enter && |sh.tokens| == sh.capacity < sh.maxCapacity
  {
    PushKeepsShape(sh, NewlineToken);
    if sh.tokens[|sh.tokens| - 1].value == Enter then sh.capacity else Pushed(sh, NewlineToken).capacity
  }

  /** Dropping tokens from the front or ending the tokens with a newline keeps them drawable. */
  lemma WithNewlineReady(sh: Shape, cols: nat)
    requires ShapeOk(sh) && |sh.tokens| > 0 && DisplayReady(sh.tokens, cols)
    ensures DisplayReady(WithNewline(sh), cols)
  {
    var c := WithNewline(sh);
    if sh.tokens[|sh.tokens| - 1].value != Enter {
      var k := NewlineLoss(sh);
      forall i | 0 <= i < |c|
        ensures (IsText(c[i]) || c[i].width == 0) && (!IsText(c[i]) || c[i].width <= cols)
        ensures i < |c| - 1 && c[i].value == ColorInfo ==> !IsText(c[i + 1]) || c[i + 1].width == 0
      {
        if i < |c| - 1 {
          assert c[i] == sh.tokens[k + i];
          if i < |c| - 2 {
            assert c[i + 1] == sh.tokens[k + i + 1];
          }
        }
      }
    }
  }

  /** The pass never stores more rows than there are tokens. */
  lemma WrapRowsCount(c: seq<Token>, cols: nat)
    requires WrapReady(c, cols)
    ensures |WrapRows(c, cols)| <= |c|
  {
    assert WrapInv(c, Wrapped(c, cols, StartState));
  }

  /**
   * ct_update on a display.  An empty buffer gives `height` blank rows
   * with no line breaks and a row count of 0.  Otherwise a newline is
   * pushed when the tokens do not end in one, the pass stores the rows
   * and their number in data_index, the frame from row `index` is drawn,
   * and the pushed newline is removed again; when the push scrolled a
   * full buffer, the scrolled-out tokens stay lost.  rows_info holds
   * DISPLAY_BUFFER_SIZE rows, so the buffer may hold no more tokens.
   */
  method UpdateDisplay(w: Widget, cols: nat) returns (r: Widget, out: seq<Byte>)
    requires w.buffer.Valid() && w.buffer.maxCapacity <= DisplayBufferSize
    requires DisplayReady(w.buffer.Contents(), cols)
    modifies w.buffer, w.buffer.data
    ensures w.buffer.Valid()
    ensures w.buffer.live == old(w.buffer.live) && w.buffer.maxCapacity == old(w.buffer.maxCapacity)
    ensures old(w.buffer.size) == 0 ==> w.buffer.capacity == old(w.buffer.capacity)
    ensures old(w.buffer.size) == 0 ==>
      (r == w.(dataIndex := 0) && w.buffer.Contents() == []
       && out == Blanks(EmptyRow(cols), w.height))
    ensures old(w.buffer.size) > 0 ==>
      var sh := old(w.buffer.State());
      var c := WithNewline(sh);
      var rows := WrapRows(c, cols);
      && r == w.(dataIndex := |rows|)
      && out == Frame(c, rows, w.index, w.height, cols)
      && w.buffer.Contents() == sh.tokens[NewlineLoss(sh)..]
      && w.buffer.capacity == NewlineCapacity(sh)
  {
    if w.buffer.size == 0 {
      out := RenderBlankRows(EmptyRow(cols), w.height);
      r := w.(dataIndex := 0);
      return;
    }
    r, out := UpdateRows(w, cols);
  }

  /** ct_update on a display that holds tokens: the newline, the pass, the frame, and the newline removed. */
  method UpdateRows(w: Widget, cols: nat) returns (r: Widget, out: seq<Byte>)
    requires w.buffer.Valid() && w.buffer.maxCapacity <= DisplayBufferSize && w.buffer.size > 0
    requires DisplayReady(w.buffer.Contents(), cols)
    modifies w.buffer, w.buffer.data
    ensures w.buffer.Valid()
    ensures w.buffer.live == old(w.buffer.live) && w.buffer.maxCapacity == old(w.buffer.maxCapacity)
    ensures var sh := old(w.buffer.State());
      var c := WithNewline(sh);
      var rows := WrapRows(c, cols);
      && r == w.(dataIndex := |rows|)
      && out == Frame(c, rows, w.index, w.height, cols)
      && w.buffer.Contents() == sh.tokens[NewlineLoss(sh)..]
      && w.buffer.capacity == NewlineCapacity(sh)
  {
    var b := w.buffer;
    ghost var sh := b.State();
    WithNewlineReady(sh, cols);
    var added := PushNewline(b);
    assert added <==> sh.tokens[|sh.tokens| - 1].value != Enter;
    ghost var c := b.Contents();
    assert c == WithNewline(sh) && |c| <= DisplayBufferSize;
    var rows;
    rows, out := DrawFrame(b, cols, w.index, w.height);
    assert b.Contents() == c;
    DropNewline(b, added);
    assert b.Contents() == if added then c[..|c| - 1] else c;
    NewlineRemoved(sh);
    r := w.(dataIndex := |rows|);
  }

  /** The calculation and rendering phases over tokens that end in a newline: the rows, and the frame drawn from them. */
  method DrawFrame(b: Buffer, cols: nat, index: nat, height: nat) returns (rows: seq<RowInfo>, out: seq<Byte>)
    requires b.Valid() && DisplayReady(b.Contents(), cols) && b.size > 0 && b.Contents()[b.size - 1].value == Enter
    ensures rows == WrapRows(b.Contents(), cols) && |rows| <= b.size
    ensures out == Frame(b.Contents(), rows, index, height, cols)
  {
    WrapRowsDrawable(b.Contents(), cols);
    WrapRowsCount(b.Contents(), cols);
    rows := WrapPass(b, cols);
    out := RenderRows(b, rows, index, height, cols);
  }

  /** Removing the newline the update pushed leaves the tokens less those the push scrolled out. */
  lemma NewlineRemoved(sh: Shape)
    requires ShapeOk(sh) && |sh.tokens| > 0
    ensures var c := WithNewline(sh);
      (if sh.tokens[|sh.tokens| - 1].value != Enter then c[..|c| - 1] else c) == sh.tokens[NewlineLoss(sh)..]
  {
    var c := WithNewline(sh);
    if sh.tokens[|sh.tokens| - 1].value != Enter {
      assert c[..|c| - 1] == sh.tokens[NewlineLoss(sh)..];
    }
  }

  /** The newline ct_update pushes before the pass when the tokens do not end in one. */
  method PushNewline(b: Buffer) returns (added: bool)
    requires b.Valid() && b.size > 0
    modifies b, b.data
    ensures b.Valid() && b.maxCapacity == old(b.maxCapacity) && (b.data == old(b.data) || fresh(b.data))
    ensures b.live == old(b.live) && b.capacity == NewlineCapacity(old(b.State()))
    ensures added <==> old(b.Contents()[b.size - 1].value != Enter)
    ensures b.Contents() == WithNewline(old(b.State()))
  {
    ghost var sh := b.State();
    added := b.data[b.size - 1].value != Enter;
    if added {
      var pushed := b.Push(NewlineToken);
    }
  }

  /** The cb_remove of the pushed newline after the frame is drawn. */
  method DropNewline(b: Buffer, added: bool)
    requires b.Valid() && (added ==> b.size > 0)
    modifies b, b.data
    ensures b.Valid() && b.data == old(b.data)
    ensures b.live == old(b.live) && b.capacity == old(b.capacity) && b.maxCapacity == old(b.maxCapacity)
    ensures b.Contents() == if added then old(b.Contents()[..b.size - 1]) else old(b.Contents())
  {
    if added {
      var removed := b.Remove(b.size - 1);
    }
  }
}
