/**
 * Terminal tokens: one printable character, one control byte or one ANSI
 * escape sequence, with the value that identifies it, its display width
 * and the bytes that produce it on a terminal (src/lib/cnc_term_token.h
 * and src/lib/cnc_term_token.c).
 *
 * Decoding (`ParseBytes`) and encoding (`ParseValue`) are pure; the
 * column-width table of wide Unicode characters (`ctt_c_width`) is not
 * part of this model and is passed in as the function `cw`.
 */
module TermToken {
  import opened Basics

  /** CTT_MAX_TOKEN_SIZE: bytes stored in every token. */
  const MaxTokenSize: nat := 12

  /** The token's byte array; bytes past `length` are zero in every token the library builds. */
  type TokenBytes = s: seq<Byte> | |s| == MaxTokenSize witness [0, 0, 0, 0, 0, 0, 0, 0, 0, 0, 0, 0]

  /** The 21-bit `value` bit-field. */
  type Value = x: int | 0 <= x < 0x20_0000

  /** ctt_width: W_NIL, W_ONE, W_TWO columns. */
  type Width = w: int | 0 <= w <= 2

  type Length = l: int | 0 <= l <= MaxTokenSize

  /** ctt_type. `Invalid` is CTT_NONE. */
  datatype TokenType = Invalid | Char | Utf8 | AnsiStyle | AnsiCursor

  datatype Token = Token(kind: TokenType, width: Width, length: Length, value: Value, bytes: TokenBytes)

  // ASCII bytes with a role in the library.
  const ColorInfo: Byte := 0x05
  const Tab: Byte := 0x09
  const Enter: Byte := 0x0A
  const Return: Byte := 0x0D
  const Escape: Byte := 0x1B
  const Blank: Byte := 0x1F
  const Space: Byte := 0x20
  const Csi: Byte := 0x5B
  const Tilde: Byte := 0x7E
  const Backspace: Byte := 0x7F

  /** Value of the five-blank "no colour" style. */
  const KeyNone: Value := 155
  /** U+2500, the horizontal line used for borders. */
  const LineChar: Value := 0x2500

  // Cursor keys: the value is the sum of the bytes of the key's sequence.
  const KeyArrowUp: Value := 183
  const KeyArrowDown: Value := 184
  const KeyArrowRight: Value := 185
  const KeyArrowLeft: Value := 186
  const KeyEnd: Value := 188
  const KeyHome: Value := 190
  const KeyInsert: Value := 294
  const KeyDelete: Value := 295
  const KeyPageUp: Value := 297
  const KeyPageDown: Value := 298

  // Styles: the value is 227 plus the SGR parameter.
  const StyleReset: Value := 227
  const StyleBold: Value := 228
  const BlackFg: Value := 257
  const RedFg: Value := 258
  const GreenFg: Value := 259
  const YellowFg: Value := 260
  const BlueFg: Value := 261
  const MagentaFg: Value := 262
  const CyanFg: Value := 263
  const WhiteFg: Value := 264
  const BlackBg: Value := 267
  const RedBg: Value := 268
  const GreenBg: Value := 269
  const YellowBg: Value := 270
  const BlueBg: Value := 271
  const MagentaBg: Value := 272
  const CyanBg: Value := 273
  const WhiteBg: Value := 274

  /** CTRL_KEY(k): the low five bits of a key. */
  function CtrlKey(k: nat): (r: nat)
    ensures r < 32 && (k - r) % 32 == 0
  {
    k % 32
  }

  /** `s` followed by zero bytes up to the token size. */
  function Pad(s: seq<Byte>): (r: TokenBytes)
    requires |s| <= MaxTokenSize
    ensures r[..|s|] == s
    ensures forall i :: |s| <= i < MaxTokenSize ==> r[i] == 0
  {
    s + seq(MaxTokenSize - |s|, _ => 0)
  }

  /** The all-zero token `{0}`. */
  const ZeroToken: Token := Token(Invalid, 0, 0, 0, Pad([]))

  /** The bytes a token writes to the terminal. */
  function Payload(t: Token): seq<Byte>
  {
    t.bytes[..t.length]
  }

  /** Every byte after `length` is zero, as in every token the library builds. */
  predicate Clean(t: Token)
  {
    forall i :: t.length <= i < MaxTokenSize ==> t.bytes[i] == 0
  }

  function Entry(v: Value, kind: TokenType, s: seq<Byte>): Token
    requires |s| <= MaxTokenSize
  {
    Token(kind, 0, |s|, v, Pad(s))
  }

  /** ctt_ansi_tokens, in the source's order ('A'..'H' are 65..72, '0'..'9' are 48..57, 'm' is 109). */
  const AnsiTable: seq<Token> := [
    Entry(KeyArrowUp, AnsiCursor, [Escape, Csi, 65]),
    Entry(KeyArrowDown, AnsiCursor, [Escape, Csi, 66]),
    Entry(KeyArrowRight, AnsiCursor, [Escape, Csi, 67]),
    Entry(KeyArrowLeft, AnsiCursor, [Escape, Csi, 68]),
    Entry(KeyEnd, AnsiCursor, [Escape, Csi, 70]),
    Entry(KeyHome, AnsiCursor, [Escape, Csi, 72]),
    Entry(KeyInsert, AnsiCursor, [Escape, Csi, 50, Tilde]),
    Entry(KeyDelete, AnsiCursor, [Escape, Csi, 51, Tilde]),
    Entry(KeyPageUp, AnsiCursor, [Escape, Csi, 53, Tilde]),
    Entry(KeyPageDown, AnsiCursor, [Escape, Csi, 54, Tilde]),

    Entry(StyleReset, AnsiStyle, [Escape, Csi, 48, 109]),
    Entry(StyleBold, AnsiStyle, [Escape, Csi, 49, 109]),
    Entry(229, AnsiStyle, [Escape, Csi, 50, 109]),
    Entry(230, AnsiStyle, [Escape, Csi, 51, 109]),
    Entry(231, AnsiStyle, [Escape, Csi, 52, 109]),
    Entry(232, AnsiStyle, [Escape, Csi, 53, 109]),
    Entry(233, AnsiStyle, [Escape, Csi, 54, 109]),
    Entry(234, AnsiStyle, [Escape, Csi, 55, 109]),
    Entry(235, AnsiStyle, [Escape, Csi, 56, 109]),
    Entry(236, AnsiStyle, [Escape, Csi, 57, 109]),

    Entry(KeyNone, AnsiStyle, [Blank, Blank, Blank, Blank, Blank]),

    Entry(BlackFg, AnsiStyle, [Escape, Csi, 51, 48, 109]),
    Entry(RedFg, AnsiStyle, [Escape, Csi, 51, 49, 109]),
    Entry(GreenFg, AnsiStyle, [Escape, Csi, 51, 50, 109]),
    Entry(YellowFg, AnsiStyle, [Escape, Csi, 51, 51, 109]),
    Entry(BlueFg, AnsiStyle, [Escape, Csi, 51, 52, 109]),
    Entry(MagentaFg, AnsiStyle, [Escape, Csi, 51, 53, 109]),
    Entry(CyanFg, AnsiStyle, [Escape, Csi, 51, 54, 109]),
    Entry(WhiteFg, AnsiStyle, [Escape, Csi, 51, 55, 109]),

    Entry(BlackBg, AnsiStyle, [Escape, Csi, 52, 48, 109]),
    Entry(RedBg, AnsiStyle, [Escape, Csi, 52, 49, 109]),
    Entry(GreenBg, AnsiStyle, [Escape, Csi, 52, 50, 109]),
    Entry(YellowBg, AnsiStyle, [Escape, Csi, 52, 51, 109]),
    Entry(BlueBg, AnsiStyle, [Escape, Csi, 52, 52, 109]),
    Entry(MagentaBg, AnsiStyle, [Escape, Csi, 52, 53, 109]),
    Entry(CyanBg, AnsiStyle, [Escape, Csi, 52, 54, 109]),
    Entry(WhiteBg, AnsiStyle, [Escape, Csi, 52, 55, 109])
  ]

  /** The values the table answers for. */
  const TableKeys: set<int> := set i | 0 <= i < |AnsiTable| :: AnsiTable[i].value

  /** Sum of a byte string. */
  function ByteSum(s: seq<Byte>): nat
  {
    if s == [] then 0 else s[0] + ByteSum(s[1..])
  }

  /** The SGR parameter spelled by the digits of an `ESC [ digits m` sequence. */
  function SgrParameter(s: seq<Byte>): int
  {
    if |s| == 4 then s[2] - '0' as int
    else if |s| == 5 then 10 * (s[2] - '0' as int) + (s[3] - '0' as int)
    else -1
  }

  /** The first table entry whose value is `v`, scanning from entry `i`. */
  function TableLookup(v: int, i: nat): (r: Option<Token>)
    requires i <= |AnsiTable|
    ensures r.Some? ==> r.value.value == v && r.value in AnsiTable[i..]
    ensures r.None? ==> forall j :: i <= j < |AnsiTable| ==> AnsiTable[j].value != v
    decreases |AnsiTable| - i
  {
    if i == |AnsiTable| then None
    else if AnsiTable[i].value == v then Some(AnsiTable[i])
    else TableLookup(v, i + 1)
  }

  /** ctt_equal on two tokens: same type, width, length, value and the first `length` bytes. */
  predicate Equal(a: Token, b: Token)
  {
    a.kind == b.kind && a.width == b.width && a.length == b.length && a.value == b.value
    && a.bytes[..a.length] == b.bytes[..b.length]
  }

  /** ctt_is_whitespace: space or tab. */
  predicate IsWhitespace(t: Token)
  {
    t.value == Space || t.value == Tab
  }

  // The bit-mask tests of the UTF-8 decoder, as ranges (see `MaskTests`).

  /** `(b & 0xC0) == 0x80` */
  predicate IsContinuation(b: Byte) { 0x80 <= b < 0xC0 }
  /** `(b & 0xE0) == 0xC0` */
  predicate IsLead2(b: Byte) { 0xC0 <= b < 0xE0 }
  /** `(b & 0xF0) == 0xE0` */
  predicate IsLead3(b: Byte) { 0xE0 <= b < 0xF0 }
  /** `(b & 0xF8) == 0xF0` */
  predicate IsLead4(b: Byte) { 0xF0 <= b < 0xF8 }

  /** The byte at `i` of a NUL-terminated string; past the end it reads as the terminator. */
  function ByteAt(s: seq<Byte>, i: nat): Byte
  {
    if i < |s| then s[i] else 0
  }

  /** ctt_parse_bytes: decodes the token at the start of `s`; `None` when it returns false. */
  function ParseBytes(s: seq<Byte>, cw: Value -> Width): (r: Option<Token>)
    ensures r.Some? ==> (r.value.kind == Char || r.value.kind == Utf8) && 1 <= r.value.length <= 4
    ensures r.Some? ==> r.value.bytes[0] == ByteAt(s, 0) && (r.value.kind == Char <==> r.value.length == 1)
    ensures ByteAt(s, 0) < 0x80 ==> r.Some? && r.value.value == ByteAt(s, 0)
  {
    var b0, b1, b2, b3 := ByteAt(s, 0), ByteAt(s, 1), ByteAt(s, 2), ByteAt(s, 3);
    if 0x20 <= b0 < 0x7F then
      Some(Token(Char, 1, 1, b0, Pad([b0])))
    else if b0 < 0x20 || b0 == 0x7F then
      Some(Token(Char, 0, 1, b0, Pad([b0])))
    else if IsLead2(b0) then
      if !IsContinuation(b1) then None
      else
        var v := (b0 % 32) * 64 + b1 % 64;
        Some(Token(Utf8, cw(v), 2, v, Pad([b0, b1])))
    else if IsLead3(b0) then
      if !IsContinuation(b1) || !IsContinuation(b2) then None
      else
        var v := (b0 % 16) * 4096 + (b1 % 64) * 64 + b2 % 64;
        Some(Token(Utf8, cw(v), 3, v, Pad([b0, b1, b2])))
    else if IsLead4(b0) then
      if !IsContinuation(b1) || !IsContinuation(b2) || !IsContinuation(b3) then None
      else
        var v := (b0 % 8) * 262144 + (b1 % 64) * 4096 + (b2 % 64) * 64 + b3 % 64;
        Some(Token(Utf8, cw(v), 4, v, Pad([b0, b1, b2, b3])))
    else
      None
  }

  /** The UTF-8 bytes ctt_parse_value writes for a code point that is not a table key. */
  function Utf8Bytes(v: Uint32): seq<Byte>
    requires 0x80 <= v <= 0x10FFFF
  {
    if v <= 0x7FF then
      [0xC0 + (v / 64) % 32, 0x80 + v % 64]
    else if v <= 0xFFFF then
      [0xE0 + (v / 4096) % 16, 0x80 + (v / 64) % 64, 0x80 + v % 64]
    else
      [0xF0 + (v / 262144) % 8, 0x80 + (v / 4096) % 64, 0x80 + (v / 64) % 64, 0x80 + v % 64]
  }

  /**
   * ctt_parse_value: the table entry for `v` when there is one, otherwise
   * the ASCII or UTF-8 token of code point `v`; a value past U+10FFFF
   * gives an invalid token that keeps the low 21 bits of `v`.
   */
  function ParseValue(v: Uint32): (r: Token)
    ensures v <= 0x10FFFF ==> r.value == v
  {
    match TableLookup(v, 0)
    case Some(entry) => entry
    case None =>
      if v < 0x80 then
        Token(Char, if v < 0x20 || v == 0x7F then 0 else 1, 1, v, Pad([v]))
      else if v <= 0x7FF then
        Token(Utf8, 1, 2, v, Pad(Utf8Bytes(v)))
      else if v <= 0xFFFF then
        Token(Utf8, 1, 3, v, Pad(Utf8Bytes(v)))
      else if v <= 0x10FFFF then
        Token(Utf8, 2, 4, v, Pad(Utf8Bytes(v)))
      else
        Token(Invalid, 0, 0, v % 0x20_0000, Pad([]))
  }

  /** The byte count of the UTF-8 encoding of `v`, as ctt_parse_value picks it. */
  function EncodedLength(v: int): nat
  {
    if v < 0x80 then 1 else if v <= 0x7FF then 2 else if v <= 0xFFFF then 3 else 4
  }

  // ---------------------------------------------------------------------
  // Table facts
  // ---------------------------------------------------------------------

  /** The table has 37 entries: 10 cursor keys, 10 styles, the no-colour entry and 16 colours. */
  lemma TableLayout()
    ensures |AnsiTable| == 37
    ensures forall i :: 0 <= i < |AnsiTable| ==> (AnsiTable[i].kind == AnsiCursor <==> i < 10)
    ensures forall i :: 0 <= i < |AnsiTable| ==> (AnsiTable[i].kind == AnsiStyle <==> 10 <= i)
    ensures AnsiTable[20].value == KeyNone
  {
  }

  /** No two entries share a value. */
  lemma TableKeysDistinct()
    ensures forall i, j :: 0 <= i < j < |AnsiTable| ==> AnsiTable[i].value != AnsiTable[j].value
  {
    TableValues();
  }

  /** The cursor keys' values, in table order, and the reset code at entry 20. */
  lemma CursorValues()
    ensures |AnsiTable| == 37
    ensures forall i :: 0 <= i < 10 ==> AnsiTable[i].value == [183, 184, 185, 186, 188, 190, 294, 295, 297, 298][i]
    ensures AnsiTable[20].value == 155
  {
  }

  /** The style codes are consecutive values from entry 10. */
  lemma StyleValues()
    ensures |AnsiTable| == 37
    ensures forall i :: 10 <= i < 20 ==> AnsiTable[i].value == 217 + i
  {
  }

  /** The foreground colour codes are consecutive values from entry 21. */
  lemma ForegroundValues()
    ensures |AnsiTable| == 37
    ensures forall i :: 21 <= i < 29 ==> AnsiTable[i].value == 236 + i
  {
  }

  /** The background colour codes are consecutive values from entry 29. */
  lemma BackgroundValues()
    ensures |AnsiTable| == 37
    ensures forall i :: 29 <= i < 37 ==> AnsiTable[i].value == 238 + i
  {
  }

  /** The table's values block by block: the cursor keys, then runs of consecutive style and colour codes. */
  lemma TableValues()
    ensures |AnsiTable| == 37
    ensures AnsiTable[0].value == 183 && AnsiTable[1].value == 184 && AnsiTable[2].value == 185
    ensures AnsiTable[3].value == 186 && AnsiTable[4].value == 188 && AnsiTable[5].value == 190
    ensures AnsiTable[6].value == 294 && AnsiTable[7].value == 295 && AnsiTable[8].value == 297
    ensures AnsiTable[9].value == 298 && AnsiTable[20].value == 155
    ensures forall i :: 10 <= i < 20 ==> AnsiTable[i].value == 217 + i
    ensures forall i :: 21 <= i < 29 ==> AnsiTable[i].value == 236 + i
    ensures forall i :: 29 <= i < 37 ==> AnsiTable[i].value == 238 + i
  {
    CursorValues();
    StyleValues();
    ForegroundValues();
    BackgroundValues();
  }

  /** Every key lies in 155..298, so no ASCII value and no code point past U+012A reaches the table. */
  lemma TableKeysRange()
    ensures forall i :: 0 <= i < |AnsiTable| ==> 155 <= AnsiTable[i].value <= 298
    ensures forall k :: k in TableKeys ==> 155 <= k <= 298
  {
    TableValues();
  }

  /** Every entry is zero-width, clean and 3 to 5 bytes long. */
  lemma TableEntriesShape()
    ensures forall i :: 0 <= i < |AnsiTable| ==>
      AnsiTable[i].width == 0 && Clean(AnsiTable[i]) && 3 <= AnsiTable[i].length <= 5
  {
  }

  /** Every cursor key's sequence starts with an escape. */
  lemma CursorEntriesAreEscapes()
    ensures forall i :: 0 <= i < 10 ==> AnsiTable[i].bytes[0] == Escape
  {
  }

  /** A cursor key's value is the sum of the bytes of its escape sequence. */
  lemma CursorValueIsByteSum()
    ensures forall i :: 0 <= i < 10 ==> AnsiTable[i].value == ByteSum(Payload(AnsiTable[i]))
  {
    forall i | 0 <= i < 10
      ensures AnsiTable[i].value == ByteSum(Payload(AnsiTable[i]))
    {
      var s := Payload(AnsiTable[i]);
      assert |s| == 3 || |s| == 4;
      assert ByteSum(s) == s[0] + ByteSum(s[1..]);
      assert ByteSum(s[1..]) == s[1] + ByteSum(s[2..]);
      assert ByteSum(s[2..]) == s[2] + ByteSum(s[3..]);
      if |s| == 4 {
        assert ByteSum(s[3..]) == s[3] + ByteSum(s[4..]);
      }
    }
  }

  /** A style's value is 227 plus the SGR parameter of its sequence; the no-colour entry is five blanks. */
  lemma StyleValueIsSgrOffset()
    ensures forall i :: 10 <= i < |AnsiTable| && i != 20 ==>
      AnsiTable[i].value == 227 + SgrParameter(Payload(AnsiTable[i]))
    ensures Payload(AnsiTable[20]) == Repeat(Blank, 5)
  {
  }

  /** ctt_parse_value returns each table entry for its own value. */
  lemma {:induction false} ParseValueFindsEntry(i: nat)
    requires i < |AnsiTable|
    ensures ParseValue(AnsiTable[i].value) == AnsiTable[i]
  {
    TableKeysDistinct();
    LookupFinds(AnsiTable[i].value, 0, i);
  }

  lemma {:induction false} LookupFinds(v: int, from: nat, i: nat)
    requires from <= i < |AnsiTable|
    requires AnsiTable[i].value == v
    requires forall j :: from <= j < i ==> AnsiTable[j].value != v
    ensures TableLookup(v, from) == Some(AnsiTable[i])
    decreases i - from
  {
    if from < i {
      LookupFinds(v, from + 1, i);
    }
  }

  /** The table is consulted exactly for its keys. */
  lemma LookupIffKey(v: int)
    ensures TableLookup(v, 0).Some? <==> v in TableKeys
  {
    if v in TableKeys {
      var i :| 0 <= i < |AnsiTable| && AnsiTable[i].value == v;
    }
  }

  // ---------------------------------------------------------------------
  // Mask tests
  // ---------------------------------------------------------------------

  /** The range tests above are the decoder's bit-mask tests. */
  lemma MaskTests(b: Byte)
    ensures IsContinuation(b) <==> (b as bv8) & 0xC0 == 0x80
    ensures IsLead2(b) <==> (b as bv8) & 0xE0 == 0xC0
    ensures IsLead3(b) <==> (b as bv8) & 0xF0 == 0xE0
    ensures IsLead4(b) <==> (b as bv8) & 0xF8 == 0xF0
  {
  }

  // ---------------------------------------------------------------------
  // Classification and round trips
  // ---------------------------------------------------------------------

  /** Every token ctt_parse_bytes builds copies its first `length` input bytes, is clean and 1 to 4 bytes long. */
  lemma ParseBytesShape(s: seq<Byte>, cw: Value -> Width)
    ensures ParseBytes(s, cw).Some? ==>
      var t := ParseBytes(s, cw).value;
      1 <= t.length <= 4 && Clean(t) && (forall i :: 0 <= i < t.length ==> t.bytes[i] == ByteAt(s, i))
      && (t.kind == Char <==> t.length == 1)
      && (t.kind == Char ==> t.value == ByteAt(s, 0) && (t.width == 1 <==> 0x20 <= t.value < 0x7F))
  {
  }

  /** ctt_parse_bytes fails exactly on a bad lead byte or a missing continuation byte. */
  lemma ParseBytesFails(s: seq<Byte>, cw: Value -> Width)
    ensures ParseBytes(s, cw).None? <==>
      var b0 := ByteAt(s, 0);
      (0x80 <= b0 < 0xC0) || b0 >= 0xF8
      || (0xC0 <= b0 < 0xF8 && !IsContinuation(ByteAt(s, 1)))
      || (0xE0 <= b0 < 0xF8 && !IsContinuation(ByteAt(s, 2)))
      || (0xF0 <= b0 < 0xF8 && !IsContinuation(ByteAt(s, 3)))
  {
  }

  /** ctt_parse_value classifies code points by range; its output is clean. */
  lemma ParseValueShape(v: Uint32)
    requires v !in TableKeys
    ensures var t := ParseValue(v);
      Clean(t)
      && (v < 0x80 ==> t.kind == Char && t.length == 1 && t.value == v
                       && (t.width == 0 <==> v < 0x20 || v == 0x7F))
      && (0x80 <= v <= 0x10FFFF ==>
            t.kind == Utf8 && t.length == EncodedLength(v) && t.value == v
            && t.width == (if v <= 0xFFFF then 1 else 2))
      && (v > 0x10FFFF ==> t.kind == Invalid && t.length == 0 && t.width == 0 && t.value == v % 0x20_0000)
  {
    LookupIffKey(v);
  }

  lemma DivMod(q: int, r: int, d: int)
    requires d == 8 || d == 16 || d == 32 || d == 64 || d == 4096 || d == 262144
    requires 0 <= r < d
    ensures (q * d + r) / d == q && (q * d + r) % d == r
  {
    if d == 8 {
    } else if d == 16 {
    } else if d == 32 {
    } else if d == 64 {
    } else if d == 4096 {
    } else {
    }
  }

  /** The two-byte form: lead and continuation byte, and their payload bits give `v` back. */
  lemma Utf8Bytes2(v: Uint32)
    requires 0x80 <= v <= 0x7FF
    ensures var p := Utf8Bytes(v);
      |p| == 2 && IsLead2(p[0]) && IsContinuation(p[1]) && (p[0] as int % 32) * 64 + p[1] % 64 == v
  {
    var q := v / 64;
    DivMod(q, v % 64, 64);
    DivMod(6, q, 32);
  }

  lemma Utf8Bytes3(v: Uint32)
    requires 0x800 <= v <= 0xFFFF
    ensures var p := Utf8Bytes(v);
      |p| == 3 && IsLead3(p[0]) && IsContinuation(p[1]) && IsContinuation(p[2])
      && (p[0] as int % 16) * 4096 + (p[1] as int % 64) * 64 + p[2] % 64 == v
  {
    var q := v / 4096;
    var m := (v / 64) % 64;
    assert v == q * 4096 + m * 64 + v % 64;
    DivMod(14, q, 16);
  }

  lemma Utf8Bytes4(v: Uint32)
    requires 0x1_0000 <= v <= 0x10FFFF
    ensures var p := Utf8Bytes(v);
      |p| == 4 && IsLead4(p[0]) && IsContinuation(p[1]) && IsContinuation(p[2]) && IsContinuation(p[3])
      && (p[0] as int % 8) * 262144 + (p[1] as int % 64) * 4096 + (p[2] as int % 64) * 64 + p[3] % 64 == v
  {
    var r1 := v / 64;
    var r2 := r1 / 64;
    var d0, d1, d2, d3 := r2 / 64, r2 % 64, r1 % 64, v % 64;
    assert v == d0 * 262144 + d1 * 4096 + d2 * 64 + d3;
    Utf8Digits4(d0, d1, d2, d3);
    LeadByte4(d0);
    ContinuationByte(d1);
    ContinuationByte(d2);
    ContinuationByte(d3);
  }

  /** The four-byte form written out from the code point's base-64 digits. */
  lemma Utf8Digits4(d0: nat, d1: nat, d2: nat, d3: nat)
    requires d0 < 8 && d1 < 64 && d2 < 64 && d3 < 64
    requires 0x1_0000 <= d0 * 262144 + d1 * 4096 + d2 * 64 + d3 <= 0x10FFFF
    ensures Utf8Bytes(d0 * 262144 + d1 * 4096 + d2 * 64 + d3) == [0xF0 + d0, 0x80 + d1, 0x80 + d2, 0x80 + d3]
  {
    Digits4(d0, d1, d2, d3);
  }

  /** A lead byte of the four-byte form carries three payload bits. */
  lemma LeadByte4(d: nat)
    requires d < 8
    ensures IsLead4(0xF0 + d) && (0xF0 + d) % 8 == d
  {
  }

  /** A continuation byte carries six payload bits. */
  lemma ContinuationByte(d: nat)
    requires d < 64
    ensures IsContinuation(0x80 + d) && (0x80 + d) % 64 == d
  {
  }

  /** Encoding then decoding gives the code point back, for every value up to U+10FFFF that is not a table key. */
  lemma EncodeDecode(v: Uint32, cw: Value -> Width)
    requires v <= 0x10FFFF && v !in TableKeys
    ensures ParseBytes(Payload(ParseValue(v)), cw).Some?
    ensures var t := ParseBytes(Payload(ParseValue(v)), cw).value;
      t.kind == ParseValue(v).kind && t.length == ParseValue(v).length
      && t.value == v && t.bytes == ParseValue(v).bytes
      && t.width == (if v < 0x80 then ParseValue(v).width else cw(v))
  {
    LookupIffKey(v);
    if v < 0x80 {
    } else {
      EncodeDecodeUtf8(v, cw, Utf8Bytes(v));
    }
  }

  /** The multi-byte half of EncodeDecode, over the encoder's bytes `p`. */
  lemma EncodeDecodeUtf8(v: Uint32, cw: Value -> Width, p: seq<Byte>)
    requires 0x80 <= v <= 0x10FFFF && p == Utf8Bytes(v)
    ensures ParseBytes(p, cw) == Some(Token(Utf8, cw(v), |p|, v, Pad(p)))
  {
    if v <= 0x7FF {
      Utf8Bytes2(v);
    } else if v <= 0xFFFF {
      Utf8Bytes3(v);
    } else {
      Utf8Bytes4(v);
    }
  }

  /** A two-byte sequence in shortest form is what the encoder writes for its code point. */
  lemma Decode2(b0: Byte, b1: Byte)
    requires IsLead2(b0) && IsContinuation(b1)
    requires 0x80 <= (b0 % 32) * 64 + b1 % 64
    ensures Utf8Bytes((b0 % 32) * 64 + b1 % 64) == [b0, b1]
  {
    DivMod(b0 % 32, b1 % 64, 64);
  }

  lemma Decode3(b0: Byte, b1: Byte, b2: Byte)
    requires IsLead3(b0) && IsContinuation(b1) && IsContinuation(b2)
    requires 0x800 <= (b0 % 16) * 4096 + (b1 % 64) * 64 + b2 % 64
    ensures Utf8Bytes((b0 % 16) * 4096 + (b1 % 64) * 64 + b2 % 64) == [b0, b1, b2]
  {
    var v := (b0 % 16) * 4096 + (b1 % 64) * 64 + b2 % 64;
    DivMod((b0 % 16) * 64 + b1 % 64, b2 % 64, 64);
    DivMod(b0 % 16, b1 % 64, 64);
    DivMod(b0 % 16, (b1 % 64) * 64 + b2 % 64, 4096);
  }

  lemma Decode4(b0: Byte, b1: Byte, b2: Byte, b3: Byte)
    requires IsLead4(b0) && IsContinuation(b1) && IsContinuation(b2) && IsContinuation(b3)
    requires 0x1_0000 <= (b0 % 8) * 262144 + (b1 % 64) * 4096 + (b2 % 64) * 64 + b3 % 64 <= 0x10FFFF
    ensures Utf8Bytes((b0 % 8) * 262144 + (b1 % 64) * 4096 + (b2 % 64) * 64 + b3 % 64) == [b0, b1, b2, b3]
  {
    LeadPayload4(b0);
    ContinuationPayload(b1);
    ContinuationPayload(b2);
    ContinuationPayload(b3);
    Utf8Digits4(b0 % 8, b1 % 64, b2 % 64, b3 % 64);
  }

  /** A four-byte lead byte is 0xF0 plus its three payload bits. */
  lemma LeadPayload4(b: Byte)
    requires IsLead4(b)
    ensures 0xF0 + b % 8 == b
  {
  }

  /** A continuation byte is 0x80 plus its six payload bits. */
  lemma ContinuationPayload(b: Byte)
    requires IsContinuation(b)
    ensures 0x80 + b % 64 == b
  {
  }

  /** The four base-64 digits of a code point, most significant first, as the encoder extracts them. */
  lemma Digits4(d0: nat, d1: nat, d2: nat, d3: nat)
    requires d0 < 8 && d1 < 64 && d2 < 64 && d3 < 64
    ensures var v := d0 * 262144 + d1 * 4096 + d2 * 64 + d3;
      v / 262144 == d0 && (v / 4096) % 64 == d1 && (v / 64) % 64 == d2 && v % 64 == d3
  {
    var hi := d0 * 64 + d1;
    var mid := hi * 64 + d2;
    DivMod(mid, d3, 64);
    DivMod(hi, d2, 64);
    DivMod(d0, d1, 64);
    DivMod(hi, d2 * 64 + d3, 4096);
    DivMod(d0, d1 * 4096 + d2 * 64 + d3, 262144);
  }

  /**
   * Decoding then encoding gives the same bytes, for every shortest-form
   * sequence whose code point is not a table key.
   */
  lemma DecodeEncode(s: seq<Byte>, cw: Value -> Width)
    requires ParseBytes(s, cw).Some?
    requires var t := ParseBytes(s, cw).value; t.length == EncodedLength(t.value) && t.value !in TableKeys
    ensures var t := ParseBytes(s, cw).value;
      t.value <= 0x10FFFF ==> ParseValue(t.value).bytes == t.bytes && ParseValue(t.value).kind == t.kind
  {
    var t := ParseBytes(s, cw).value;
    if t.value <= 0x10FFFF {
      LookupIffKey(t.value);
      if t.length > 1 {
        DecodeUtf8(s, cw);
      }
    }
  }

  /** The multi-byte half of DecodeEncode: the decoded bytes are the encoder's bytes for the decoded value. */
  lemma DecodeUtf8(s: seq<Byte>, cw: Value -> Width)
    requires ParseBytes(s, cw).Some?
    requires var t := ParseBytes(s, cw).value; 1 < t.length == EncodedLength(t.value) && t.value <= 0x10FFFF
    ensures var t := ParseBytes(s, cw).value; t.kind == Utf8 && 0x80 <= t.value && t.bytes == Pad(Utf8Bytes(t.value))
  {
    var t := ParseBytes(s, cw).value;
    var b0, b1, b2, b3 := ByteAt(s, 0), ByteAt(s, 1), ByteAt(s, 2), ByteAt(s, 3);
    if t.length == 2 {
      Decode2(b0, b1);
    } else if t.length == 3 {
      Decode3(b0, b1, b2);
    } else {
      Decode4(b0, b1, b2, b3);
    }
  }

  /** The decoder accepts the overlong two-byte form of NUL. */
  lemma AcceptsOverlong(cw: Value -> Width)
    ensures ParseBytes([0xC0, 0x80], cw).Some?
    ensures ParseBytes([0xC0, 0x80], cw).value.value == 0
    ensures ParseBytes([0xC0, 0x80], cw).value.length == 2
  {
  }

  /** The decoder accepts four-byte leads past U+10FFFF, which the encoder turns into invalid tokens. */
  lemma AcceptsBeyondUnicode(cw: Value -> Width)
    ensures ParseBytes([0xF7, 0xBF, 0xBF, 0xBF], cw).Some?
    ensures ParseBytes([0xF7, 0xBF, 0xBF, 0xBF], cw).value.value == 0x1F_FFFF
    ensures ParseValue(0x1F_FFFF).kind == Invalid
  {
    var s: seq<Byte> := [0xF7, 0xBF, 0xBF, 0xBF];
    assert ByteAt(s, 0) == 0xF7 && ByteAt(s, 1) == 0xBF && ByteAt(s, 2) == 0xBF && ByteAt(s, 3) == 0xBF;
    assert (0xF7 % 8) * 262144 + (0xBF % 64) * 4096 + (0xBF % 64) * 64 + 0xBF % 64 == 0x1F_FFFF;
    TableKeysRange();
    ParseValueShape(0x1F_FFFF);
  }

  /** A token counts as whitespace exactly when the low 21 bits of the encoded value are a space or a tab. */
  lemma WhitespaceValues(v: Uint32)
    ensures IsWhitespace(ParseValue(v)) <==> v % 0x20_0000 == Space || v % 0x20_0000 == Tab
  {
    if v in TableKeys {
      LookupIffKey(v);
      TableKeysRange();
      assert 155 <= v <= 298;
      Low21Bits(v);
      assert ParseValue(v).value == v;
    } else {
      ParseValueShape(v);
      if v <= 0x10FFFF {
        Low21Bits(v);
      } else {
        assert ParseValue(v).value == v % 0x20_0000;
      }
    }
  }

  lemma Low21Bits(v: int)
    requires 0 <= v < 0x20_0000
    ensures v % 0x20_0000 == v
  {
  }

  /** ctt_equal is an equivalence relation. */
  lemma EqualIsEquivalence(a: Token, b: Token, c: Token)
    ensures Equal(a, a)
    ensures Equal(a, b) ==> Equal(b, a)
    ensures Equal(a, b) && Equal(b, c) ==> Equal(a, c)
  {
  }

  /** On clean tokens ctt_equal is plain equality; it ignores only the bytes past `length`. */
  lemma EqualIffSame(a: Token, b: Token)
    requires Clean(a) && Clean(b)
    ensures Equal(a, b) <==> a == b
  {
    if Equal(a, b) {
      assert forall i :: 0 <= i < MaxTokenSize ==> a.bytes[i] == b.bytes[i] by {
        forall i | 0 <= i < MaxTokenSize
          ensures a.bytes[i] == b.bytes[i]
        {
          if i < a.length {
            assert a.bytes[..a.length][i] == b.bytes[..b.length][i];
          }
        }
      }
    }
  }
}
