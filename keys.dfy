/**
 * The pure parts of the terminal's input handling: how the bytes waiting
 * on standard input become one token (the classification part of
 * _ct_getch) and the key-to-command map of ct_get_user_input.
 */
module Keys {
  import opened Basics
  import opened TermToken

  // ---------------------------------------------------------------------
  // Reading one token
  // ---------------------------------------------------------------------

  /** The UTF-8 length _ct_getch expects from a lead byte; 0 for a byte that cannot lead. */
  function ExpectedLength(b: Byte): (n: nat)
    ensures n <= 4
    ensures n == 0 <==> IsContinuation(b) || b >= 0xF8
    ensures n == 1 <==> b < 0x80
  {
    if b < 0x80 then 1
    else if IsLead2(b) then 2
    else if IsLead3(b) then 3
    else if IsLead4(b) then 4
    else 0
  }

  /** The first index in [from, to) whose byte is not a continuation byte, or `to`. */
  function FirstNonContinuation(s: seq<Byte>, from: nat, to: nat): (r: nat)
    requires from <= to <= |s|
    ensures from <= r <= to
    ensures forall i :: from <= i < r ==> IsContinuation(s[i])
    ensures r < to ==> !IsContinuation(s[r])
    decreases |s| - from
  {
    if from == to || !IsContinuation(s[from]) then from
    else FirstNonContinuation(s, from + 1, to)
  }

  /**
   * _ct_getch applied to the bytes waiting on input: the token it returns
   * and how many of the bytes it read.  A single byte goes through
   * ctt_parse_value; a UTF-8 lead byte reads at most its expected length
   * and gives up at the first bad continuation byte; an escape reads
   * everything waiting and looks up the sum of the bytes.  The escape
   * branch reads into a 12-byte array, hence the bound on its input.
   */
  function Getch(pending: seq<Byte>, cw: Value -> Width): (r: (Token, nat))
    requires |pending| > 0 && pending[0] == Escape ==> |pending| <= MaxTokenSize
    ensures r.1 <= |pending|
    ensures |pending| > 0 <==> r.1 > 0
  {
    if |pending| == 0 then (ZeroToken, 0)
    else if |pending| == 1 then (ParseValue(pending[0]), 1)
    else if pending[0] != Escape then
      var n := ExpectedLength(pending[0]);
      if n == 0 then (ParseValue(pending[0]), 1)
      else
        var k := Min(n, |pending|);
        var bad := FirstNonContinuation(pending, 1, k);
        if bad < k then (ParseValue(pending[0]), bad + 1)
        else match ParseBytes(pending[..k], cw)
          case Some(t) => (t, k)
          case None => (ZeroToken, k)
    else
      ByteSumBound(pending);
      (ParseValue(ByteSum(pending)), |pending|)
  }

  lemma {:induction false} ByteSumBound(s: seq<Byte>)
    ensures ByteSum(s) <= 255 * |s|
  {
    if s != [] {
      ByteSumBound(s[1..]);
    }
  }

  /** Every cursor key's escape sequence, waiting on input, reads as that key's table token. */
  lemma GetchCursorKeys(cw: Value -> Width)
    ensures forall i :: 0 <= i < 10 ==> Getch(Payload(AnsiTable[i]), cw) == (AnsiTable[i], AnsiTable[i].length)
  {
    forall i | 0 <= i < 10
      ensures Getch(Payload(AnsiTable[i]), cw) == (AnsiTable[i], AnsiTable[i].length)
    {
      GetchCursorKey(i, cw);
    }
  }

  /** One cursor key of GetchCursorKeys: an escape read whole, whose byte sum finds the entry. */
  lemma GetchCursorKey(i: nat, cw: Value -> Width)
    requires i < 10
    ensures Getch(Payload(AnsiTable[i]), cw) == (AnsiTable[i], AnsiTable[i].length)
  {
    CursorValueIsByteSum();
    TableEntriesShape();
    CursorEntriesAreEscapes();
    ParseValueFindsEntry(i);
    var s := Payload(AnsiTable[i]);
    assert s[0] == Escape;
    assert Getch(s, cw) == (ParseValue(ByteSum(s)), |s|);
  }

  /** A printable ASCII key, alone on input, reads as its CHAR token of width 1. */
  lemma GetchPrintable(b: Byte, cw: Value -> Width)
    requires 0x20 <= b < 0x7F
    ensures Getch([b], cw) == (Token(Char, 1, 1, b, Pad([b])), 1)
  {
    LookupIffKey(b);
    TableKeysRange();
  }

  /**
   * The UTF-8 bytes of a code point that is not a table key read back as a
   * UTF-8 token of that code point, whatever else waits behind them.
   */
  lemma GetchUtf8(v: Uint32, rest: seq<Byte>, cw: Value -> Width)
    requires 0x80 <= v <= 0x10FFFF && v !in TableKeys
    ensures var s := Payload(ParseValue(v));
      var r := Getch(s + rest, cw);
      r.1 == |s| && r.0.kind == Utf8 && r.0.value == v && r.0.bytes == ParseValue(v).bytes
  {
    var s := Payload(ParseValue(v));
    EncodeDecode(v, cw);
    ParseValueShape(v);
    ParseBytesShape(s, cw);
    var t := ParseBytes(s, cw).value;
    assert (s + rest)[..|s|] == s;
    assert s[0] == ParseValue(v).bytes[0];
    if v <= 0x7FF {
      Utf8Bytes2(v);
    } else if v <= 0xFFFF {
      Utf8Bytes3(v);
    } else {
      Utf8Bytes4(v);
    }
    assert ExpectedLength(s[0]) == |s|;
    assert FirstNonContinuation(s + rest, 1, |s|) == |s|;
  }

  /**
   * The key codes collide: the middle dot U+00B7 typed as UTF-8, the lone
   * byte 0xB7 and the escape sequence of the up arrow all read as value
   * 183, which the command map takes for the up arrow.
   */
  lemma MiddleDotIsArrowUp(cw: Value -> Width)
    ensures Getch([0xC2, 0xB7], cw).0.value == KeyArrowUp
    ensures Getch([0xB7], cw).0 == AnsiTable[0]
    ensures Getch([Escape, Csi, 65], cw).0 == AnsiTable[0]
  {
    assert AnsiTable[0].value == KeyArrowUp;
    ParseValueFindsEntry(0);
    MiddleDotDecodes(cw);
    ArrowUpSum();
  }

  /** The two UTF-8 bytes of U+00B7 decode to the value 183. */
  lemma MiddleDotDecodes(cw: Value -> Width)
    ensures Getch([0xC2, 0xB7], cw).0.value == 183
  {
    var utf8: seq<Byte> := [0xC2, 0xB7];
    assert utf8[..2] == utf8;
    assert ByteAt(utf8, 0) == 0xC2 && ByteAt(utf8, 1) == 0xB7 && IsLead2(0xC2) && IsContinuation(0xB7);
    assert ParseBytes(utf8, cw).value.value == 183;
  }

  /** The up arrow's escape sequence sums to 183 as well. */
  lemma ArrowUpSum()
    ensures ByteSum([Escape, Csi, 65]) == 183
  {
    var arrow: seq<Byte> := [Escape, Csi, 65];
    assert ByteSum(arrow) == arrow[0] + ByteSum(arrow[1..]);
    assert ByteSum(arrow[1..]) == arrow[1] + ByteSum(arrow[2..]);
    assert ByteSum(arrow[2..]) == arrow[2] + ByteSum(arrow[3..]);
  }

  // ---------------------------------------------------------------------
  // The command map
  // ---------------------------------------------------------------------

  /** What a key does outside text entry: one entry per handler of the command map. */
  datatype Command =
    | DeleteChar      // _ct_delete_char
    | ScrollUp        // _ct_vm_k
    | ScrollDown      // _ct_vm_j
    | CursorRight     // _ct_vm_l
    | CursorLeft      // _ct_vm_h
    | WordEnd         // _ct_vm_e
    | WordBack        // _ct_vm_b
    | PageUp          // _ct_page_up
    | PageDown        // _ct_page_dn
    | ModeCommand     // _ct_set_mode_cmd
    | ModeInsert      // _ct_set_mode_ins
    | FocusNext       // ct_focus_next
    | Append          // _ct_vm_a
    | AppendAtEnd     // _ct_vm_aa
    | LineStart       // _ct_vm_0
    | LineEnd         // _ct_vm_$
    | DeleteUnder     // _ct_vm_x

  /** The command map of ct_get_user_input, in its order; letters are their ASCII codes. */
  const CommandMap: seq<(int, Command)> := [
    (Backspace as int, DeleteChar),
    (KeyArrowUp as int, ScrollUp),
    (107, ScrollUp),             // 'k'
    (KeyArrowDown as int, ScrollDown),
    (106, ScrollDown),           // 'j'
    (KeyArrowRight as int, CursorRight),
    (108, CursorRight),          // 'l'
    (KeyArrowLeft as int, CursorLeft),
    (104, CursorLeft),           // 'h'
    (101, WordEnd),              // 'e'
    (98, WordBack),              // 'b'
    (KeyPageUp as int, PageUp),
    (KeyPageDown as int, PageDown),
    (Escape as int, ModeCommand),
    (3, ModeCommand),            // CTRL_KEY('c')
    (KeyInsert as int, ModeInsert),
    (105, ModeInsert),           // 'i'
    (Tab as int, FocusNext),
    (97, Append),                // 'a'
    (65, AppendAtEnd),           // 'A'
    (48, LineStart),             // '0'
    (36, LineEnd),               // '$'
    (120, DeleteUnder)           // 'x'
  ]

  /** The scan of the command map from entry `i`: the first entry whose key is `key`. */
  function Lookup(key: int, i: nat): (r: Option<Command>)
    requires i <= |CommandMap|
    ensures r.Some? ==> exists j :: i <= j < |CommandMap| && CommandMap[j] == (key, r.value)
    ensures r.None? <==> forall j :: i <= j < |CommandMap| ==> CommandMap[j].0 != key
    decreases |CommandMap| - i
  {
    if i == |CommandMap| then None
    else if CommandMap[i].0 == key then Some(CommandMap[i].1)
    else Lookup(key, i + 1)
  }

  /** No key appears twice in the map, and none is 0 (the end marker of the C array). */
  lemma CommandKeysDistinct()
    ensures forall i, j :: 0 <= i < j < |CommandMap| ==> CommandMap[i].0 != CommandMap[j].0
    ensures forall i :: 0 <= i < |CommandMap| ==> CommandMap[i].0 != 0
  {
  }

  /** Since the keys are distinct, a key runs a command exactly when the map pairs them. */
  lemma {:induction false} LookupIffEntry(key: int, c: Command)
    ensures Lookup(key, 0) == Some(c) <==> (key, c) in CommandMap
  {
    CommandKeysDistinct();
    if (key, c) in CommandMap {
      var j :| 0 <= j < |CommandMap| && CommandMap[j] == (key, c);
      var r := Lookup(key, 0);
      assert r.Some?;
      var found :| 0 <= found < |CommandMap| && CommandMap[found] == (key, r.value);
      assert found == j;
    }
  }
}
