/**
 * A screen widget (cnc_widget): a frame on the screen, a token buffer,
 * two scroll indices and the colours it is drawn with.
 */
module Widget {
  import opened Basics
  import opened TermToken
  import opened TokenBuffer

  /** The four kinds of widget (cw_type). */
  datatype WidgetType = Title | Display | Info | Prompt

  /** Maximum buffer capacities per kind. */
  const InfoBufferSize: nat := 511
  const PromptBufferSize: nat := 511
  const DisplayBufferSize: nat := 99999

  /** Columns taken by the prompt symbol (">> " or "_? "). */
  const PromptPad: nat := 3

  /** The buffer maximum cw_init asks for: none for a title, which cb_init then refuses. */
  function BufferSize(kind: WidgetType): (r: nat)
    ensures r == 0 <==> kind == Title
    ensures kind == Info || kind == Prompt ==> r == 511
    ensures kind == Display ==> r == 99999
  {
    match kind
    case Info => InfoBufferSize
    case Prompt => PromptBufferSize
    case Display => DisplayBufferSize
    case Title => 0
  }

  /** The six colour tokens of a widget. */
  datatype Colors = Colors(bg: Token, fg: Token, bgMain: Token, fgMain: Token, bgAlt: Token, fgAlt: Token)

  /** The colour slot that starts as the no-colour token in every widget. */
  const NoColor: Token := AnsiTable[20]
  /** The other colour tokens cw_init uses, as they stand in the ANSI table. */
  const BlackFgColor: Token := AnsiTable[21]
  const RedFgColor: Token := AnsiTable[22]
  const CyanFgColor: Token := AnsiTable[27]
  const GreenBgColor: Token := AnsiTable[31]
  const YellowBgColor: Token := AnsiTable[32]

  /** The foreground colours are what ctt_parse_value gives for their codes. */
  lemma ForegroundsAreParsed()
    ensures BlackFgColor == ParseValue(BlackFg) && RedFgColor == ParseValue(RedFg) && CyanFgColor == ParseValue(CyanFg)
  {
    assert AnsiTable[21].value == BlackFg && AnsiTable[22].value == RedFg && AnsiTable[27].value == CyanFg;
    ParseValueFindsEntry(21);
    ParseValueFindsEntry(22);
    ParseValueFindsEntry(27);
  }

  /** So are the background colours. */
  lemma BackgroundsAreParsed()
    ensures GreenBgColor == ParseValue(GreenBg) && YellowBgColor == ParseValue(YellowBg)
  {
    assert AnsiTable[31].value == GreenBg && AnsiTable[32].value == YellowBg;
    ParseValueFindsEntry(31);
    ParseValueFindsEntry(32);
  }

  /** The colours cw_init gives each kind of widget. */
  function InitialColors(kind: WidgetType): (r: Colors)
    ensures r.bg == NoColor && r.fg == NoColor
    ensures kind == Info ==> r.bgMain == GreenBgColor && r.fgMain == BlackFgColor && r.bgAlt == YellowBgColor && r.fgAlt == BlackFgColor
    ensures kind == Prompt ==> r.bgMain == NoColor && r.fgMain == CyanFgColor && r.bgAlt == NoColor && r.fgAlt == RedFgColor
    ensures kind == Title || kind == Display ==> r == Colors(NoColor, NoColor, NoColor, NoColor, NoColor, NoColor)
  {
    match kind
    case Info => Colors(NoColor, NoColor, GreenBgColor, BlackFgColor, YellowBgColor, BlackFgColor)
    case Prompt => Colors(NoColor, NoColor, NoColor, CyanFgColor, NoColor, RedFgColor)
    case _ => Colors(NoColor, NoColor, NoColor, NoColor, NoColor, NoColor)
  }

  /** The no-colour token every colour slot starts with is the table's entry of five blank bytes. */
  lemma NoColorIsBlanks()
    ensures NoColor == ParseValue(KeyNone) && NoColor.kind == AnsiStyle && NoColor.width == 0
    ensures Payload(NoColor) == Repeat(Blank, 5)
  {
    assert AnsiTable[20].value == KeyNone;
    ParseValueFindsEntry(20);
  }

  /**
   * A cnc_widget as a value: frame, kind, the two indices, colours and
   * focus flags.  The buffer is embedded in the C struct; here the widget
   * holds the reference to its Buffer object, which the buffer operations
   * update in place.
   */
  datatype Widget = Widget(
    originRow: SizeT, originCol: SizeT, width: SizeT, height: SizeT,
    kind: WidgetType,
    /** First visible element. */
    index: SizeT,
    /** Cursor position in the data (Prompt), or row count (Display). */
    dataIndex: SizeT,
    buffer: Buffer,
    colors: Colors,
    canFocus: bool,
    hasFocus: bool)

  /**
   * The fields cw_init sets around the buffer `b`.  A title's can_focus
   * is left as malloc found it: `uninitialised` stands for that byte.
   */
  function Initial(kind: WidgetType, b: Buffer, uninitialised: bool): (w: Widget)
    ensures w.originRow == 1 && w.originCol == 1 && w.height == 2 && w.width == 1
    ensures w.kind == kind && w.buffer == b
    ensures w.index == 0 && w.dataIndex == 0 && !w.hasFocus
    ensures w.colors.bg == NoColor && w.colors.fg == NoColor
    ensures w.colors == InitialColors(kind)
    ensures kind == Info ==> !w.canFocus
    ensures kind == Prompt || kind == Display ==> w.canFocus
    ensures kind == Title ==> w.canFocus == uninitialised
  {
    Widget(1, 1, 1, 2, kind, 0, 0, b, InitialColors(kind),
           match kind
           case Info => false
           case Prompt => true
           case Display => true
           case Title => uninitialised,
           false)
  }

  /**
   * cw_init: a fresh buffer of the kind's maximum capacity around the
   * initial fields.  The title's buffer is never usable: cb_init refuses
   * a maximum of 0 and cw_init ignores the refusal.
   */
  method Init(kind: WidgetType, uninitialised: bool) returns (w: Widget)
    ensures fresh(w.buffer) && fresh(w.buffer.data) && w.buffer.Valid()
    ensures w == Initial(kind, w.buffer, uninitialised)
    ensures w.buffer.live <==> kind != Title
    ensures w.buffer.live ==> w.buffer.State() == Shape([], Min(BufferSize(kind), InitialCapacity), BufferSize(kind))
    ensures !w.buffer.live ==> w.buffer.size == 0
  {
    var b := new Buffer(BufferSize(kind));
    w := Initial(kind, b, uninitialised);
  }

  /** cw_reset: empties the buffer and zeroes both indices; frame, colours and focus stay. */
  method Reset(w: Widget) returns (r: Widget)
    requires w.buffer.Valid()
    modifies w.buffer, w.buffer.data
    ensures r == w.(index := 0, dataIndex := 0)
    ensures w.buffer.Valid() && w.buffer.size == 0 && w.buffer.data == old(w.buffer.data)
    ensures w.buffer.capacity == old(w.buffer.capacity) && w.buffer.maxCapacity == old(w.buffer.maxCapacity)
    ensures w.buffer.live == old(w.buffer.live)
  {
    w.buffer.Clear();
    r := w.(dataIndex := 0, index := 0);
  }
}
