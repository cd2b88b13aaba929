# cnc_library in Dafny

A verified model of the core of cnc_library, a small C toolkit for vi-style
terminal user interfaces. It covers two generations of the library.

**The token library (src/lib).**

- **TermToken** (term_token.dfy): the terminal token. It packs a 21-bit value, a width of 0 to 2 columns, a type and a length of 0 to 12 into a header, followed by a 12-byte array holding the token's bytes. A CHAR or UTF8 token carries the UTF-8 bytes of its code point. An ANSI token carries its escape sequence and is found in the ANSI table by its value. The module covers encoding, decoding and the table lookups.
- **TokenBuffer** (token_buffer.dfy): the token buffer. It doubles its capacity up to a maximum capacity, and once it is full at that maximum, a push first drops the oldest quarter of its tokens. The module also covers insertion, removal, search, copying and the width/length queries.
- **Cursor** (cursor.dfy): the screen cursor: a row and a column, bounded by max_row and max_col, with the change_rows switch that lets horizontal moves wrap to the next or previous row.
- **Widget** (widget.dfy): a widget, a typed buffer with a height and focus flags.
- **Keys** (keys.dfy): classifies the bytes read from the keyboard.
- **TerminalRules** and **Terminal** (terminal_rules.dfy, terminal.dfy): the terminal's state and its operations.
  - TerminalRules gives the arithmetic of every key and motion as pure functions.
  - Terminal is a class whose methods change the terminal's fields: mode, widgets, focus, cursor, prompt buffer and settings.
- **Compositor** (compositor.dfy): the pass that lays a widget's tokens out into screen rows.

**The root generation (cnc_library.c).**

- **CharBuffer** (char_buffer.dfy): the fixed-size char buffer.
- **IntFormat** (int_format.dfy): `cnc_i_to_cca`, the integer-to-text formatter.
- **LegacyTerminal** (legacy_terminal.dfy): the older terminal's vi motions and widget bookkeeping.

Code that changes state in place is modelled as classes over `array`s or
`seq` fields, with `modifies` clauses. Each method is proved against a
specification function. The properties are proved about those functions:

- round trips (decode after encode, read-back after formatting);
- the invariants each operation keeps;
- the cursor always staying inside the data and on screen;
- layout facts about the compositor.

Fixed-width C integers are subset types of `int` (`type Byte = x: int | 0 <= x < 0x100` and the like) in basics.dfy, with Int64 and Int8 in int_format.dfy. Wrap-around is written
out where the source relies on it (size_t subtraction).

## Model

| member | source | states |
|---|---|---|
| TermToken.CtrlKey | src/lib/cnc_term_token.h:26 | CTRL_KEY keeps the low five bits of a key: the result is below 32 and equals the key modulo 32 |
| TermToken.TableLookup | src/lib/cnc_term_token.c:177-187 | the lookup scan returns an entry whose value is the key, the first such from where it starts, and nothing when no entry has it |
| TermToken.TableLayout | src/lib/cnc_term_token.h:126-167 | the ANSI table holds 37 entries: the ten cursor keys first, then styles, with the no-colour entry at position 20 |
| TermToken.TableKeysDistinct | src/lib/cnc_term_token.h:126-167 | no two table entries share a value, so a lookup by value is deterministic |
| TermToken.CursorValues | src/lib/cnc_term_token.h:52-61 | the cursor-key values in table order are 183, 184, 185, 186, 188, 190, 294, 295, 297, 298, and KS_NON___ is 155 |
| TermToken.StyleValues | src/lib/cnc_term_token.h:64-73 | the ten effect codes are the consecutive values 227..236 |
| TermToken.ForegroundValues | src/lib/cnc_term_token.h:74-81 | the eight foreground codes are the consecutive values 257..264 |
| TermToken.BackgroundValues | src/lib/cnc_term_token.h:82-89 | the eight background codes are the consecutive values 267..274 |
| TermToken.TableValues | src/lib/cnc_term_token.h:46-89 | every table value block by block, as the KS_* constants define them |
| TermToken.TableKeysRange | src/lib/cnc_term_token.h:126-167 | every key lies in 155..298, so no ASCII value and no code point above U+012A reaches the table |
| TermToken.TableEntriesShape | src/lib/cnc_term_token.h:126-167 | every entry has width W_NIL, no bytes past its length, and a length of 3 to 5 |
| TermToken.CursorEntriesAreEscapes | src/lib/cnc_term_token.h:127-136 | every cursor-key sequence starts with ESC |
| TermToken.CursorValueIsByteSum | src/lib/cnc_term_token.h:52-61 | each cursor key's value is the sum of the bytes of its escape sequence, the sum _ct_getch computes (with lines 127-136) |
| TermToken.StyleValueIsSgrOffset | src/lib/cnc_term_token.h:64-89 | each style value is 227 plus the SGR parameter in its sequence, and KS_NON___ is five C_USC bytes (with lines 137-167) |
| TermToken.ParseValueFindsEntry | src/lib/cnc_term_token.c:177-187 | ctt_parse_value returns every table entry unchanged for its own value |
| TermToken.LookupIffKey | src/lib/cnc_term_token.c:177-187 | the table answers exactly for the values that are keys |
| TermToken.MaskTests | src/lib/cnc_term_token.c:92-168 | the byte-range tests of the model are the decoder's bit-mask tests (10xxxxxx, 110xxxxx, 1110xxxx, 11110xxx) |
| TermToken.ParseBytesShape | src/lib/cnc_term_token.c:52-169 | a decoded token copies its first length input bytes, is 1 to 4 bytes long, is CHAR exactly when one byte long, and a CHAR has width 1 exactly for 0x20..0x7E |
| TermToken.ParseBytes | src/lib/cnc_term_token.c:52-169 | ctt_parse_bytes: a decoded token is CHAR or UTF8, 1 to 4 bytes long, starts with the input's first byte and is CHAR exactly when one byte long; any byte below 0x80 decodes to itself (the full shape is ParseBytesShape, the failures ParseBytesFails, the round trips DecodeEncode and EncodeDecode) |
| TermToken.ParseBytesFails | src/lib/cnc_term_token.c:92-168 | ctt_parse_bytes fails exactly on a lead byte 0x80..0xBF or 0xF8..0xFF, or a missing 10xxxxxx continuation byte |
| TermToken.ParseValueShape | src/lib/cnc_term_token.c:198-245 | outside the table: below 0x80 a CHAR of width 0 for controls and 0x7F; up to 0x10FFFF a UTF8 token of 2, 3 or 4 bytes with width 1, 1 or 2 |
| TermToken.ParseValue | src/lib/cnc_term_token.c:171-245 | ctt_parse_value: a value up to U+10FFFF keeps its value, whether a table entry or a code point (the table priority is ParseValueFindsEntry and LookupIffKey, the ranges ParseValueShape, the round trips EncodeDecode and DecodeEncode) |
| TermToken.EncodeDecode | src/lib/cnc_term_token.c:69-166 | decoding the bytes ctt_parse_value writes for a non-key code point up to U+10FFFF gives back its type, length, value and bytes; the width comes from ctt_c_width instead (with lines 198-240) |
| TermToken.EncodeDecodeUtf8 | src/lib/cnc_term_token.c:92-166 | the multi-byte half of the round trip (with lines 207-239) |
| TermToken.DecodeEncode | src/lib/cnc_term_token.c:92-166 | re-encoding a decoded shortest-form, non-key sequence gives the same bytes and type (with lines 198-240) |
| TermToken.DecodeUtf8 | src/lib/cnc_term_token.c:92-166 | the multi-byte half of the reverse round trip (with lines 207-239) |
| TermToken.Decode2 | src/lib/cnc_term_token.c:92-112 | a shortest-form two-byte sequence is what the encoder writes for its code point (with lines 207-216) |
| TermToken.Decode3 | src/lib/cnc_term_token.c:114-137 | a shortest-form three-byte sequence is what the encoder writes for its code point (with lines 218-227) |
| TermToken.Decode4 | src/lib/cnc_term_token.c:139-166 | a shortest-form four-byte sequence is what the encoder writes for its code point (with lines 229-239) |
| TermToken.AcceptsOverlong | src/lib/cnc_term_token.c:92-112 | the decoder accepts the overlong form C0 80 of NUL |
| TermToken.AcceptsBeyondUnicode | src/lib/cnc_term_token.c:139-166 | the decoder accepts F7 BF BF BF (0x1FFFFF), which the encoder turns into a NONE token (with lines 241-245) |
| TermToken.WhitespaceValues | src/lib/cnc_term_token.c:41-50 | the token encoded for v is whitespace exactly when the low 21 bits of v are 0x20 or 0x09 |
| TermToken.EqualIsEquivalence | src/lib/cnc_term_token.c:3-39 | ctt_equal is reflexive, symmetric and transitive |
| TermToken.EqualIffSame | src/lib/cnc_term_token.c:3-39 | on tokens with no bytes past their length, ctt_equal holds exactly when the tokens are equal |
| TokenBuffer.PushOverrunsBelowFour | src/lib/cnc_buffer.c:7-25 | as written, a full buffer whose maximum capacity is below four scrolls by nothing and cb_push writes one slot past the array (with lines 454-460) |
| TokenBuffer.PushOverrunExample | src/lib/cnc_buffer.c:7-25 | the concrete case: maximum capacity 1, one token held, the push writes slot 1 of a one-slot array (with lines 454-460) |
| TokenBuffer.ScrollShiftAsWritten | src/lib/cnc_buffer.c:7-25 | _cb_scroll as written: the shift is at most capacity/4, is 0 or below the size, and is 0 whenever the capacity is below four (the overrun that follows is PushOverrunsBelowFour) |
| TokenBuffer.PushSlotAsWritten | src/lib/cnc_buffer.c:454-460 | the slot cb_push writes after that scroll on a full buffer at its maximum: between capacity - capacity/4 and capacity, and the capacity itself (one past the array) below four (PushOverrunExample) |
| TokenBuffer.Evicted | src/lib/cnc_buffer.c:7-25 | the tokens a full buffer at maximum drops: a quarter of the capacity as _cb_scroll computes it, and at least one (with lines 454-460) |
| TokenBuffer.PushAll | src/lib/cnc_buffer.c:28-44 | pushing a sequence keeps the size/capacity/maximum shape well formed and the maximum unchanged |
| TokenBuffer.PushKeepsShape | src/lib/cnc_buffer.c:416-463 | cb_push keeps size <= capacity <= max_capacity, never shrinks the capacity, and leaves old[k..] + [t] with k the evicted count when full at maximum and 0 otherwise |
| TokenBuffer.PushKeepsTokens | src/lib/cnc_buffer.c:416-452 | a push into a buffer not full at its maximum appends the token and loses nothing; the capacity doubles up to the maximum when full |
| TokenBuffer.PushAllKeepsTokens | src/lib/cnc_buffer.c:28-44 | pushes lose nothing while the tokens fit in the maximum capacity (with lines 416-452) |
| TokenBuffer.ElevenPushes | src/lib/cnc_buffer.c:416-463 | eleven pushes into an empty buffer of capacity 4 and maximum 10 grow it to 8 then 10, and the eleventh drops the two oldest tokens |
| TokenBuffer.PushAllCapacity | src/lib/cnc_buffer.c:416-452 | ten pushes into capacity 4, maximum 10 end at capacity 10 |
| TokenBuffer.PushAllSplit | src/lib/cnc_buffer.c:28-44 | pushing two sequences one after the other is pushing their concatenation |
| TokenBuffer.InsertThenRemove | src/lib/cnc_buffer.c:247-304 | below the maximum, cb_insert puts the token at index with the others in order, and cb_remove at that index gives the old tokens back (with lines 465-481) |
| TokenBuffer.InsertWhenFull | src/lib/cnc_buffer.c:247-304 | a full buffer at its maximum drops only its oldest token, moves the index down by one when it is past 0, and keeps its size |
| TokenBuffer.Clamped | src/lib/cnc_buffer.c:115-142 | the count cb_data_width sums over: count, but never past the end of the buffer |
| TokenBuffer.DataLengthOverreads | src/lib/cnc_buffer.c:91-113 | as written, cb_data_length clamps the count to size rather than size - start, so from any start past 0 it reads beyond the buffer |
| TokenBuffer.DataLengthOverreadExample | src/lib/cnc_buffer.c:91-113 | the concrete case: two tokens, start 1, count 2 reads index 2 |
| TokenBuffer.WidthSumBounds | src/lib/cnc_buffer.c:115-142 | each token adds at most two columns, so a longer slice is never narrower |
| TokenBuffer.ParseText | src/lib/cnc_buffer.c:46-78 | the tokens of a NUL-terminated text, decoded one after the other, and nothing when a byte sequence does not decode |
| TokenBuffer.ParseBytesLength | src/lib/cnc_buffer.c:46-78 | a token decoded from a text that does not start with NUL lies inside the text, so the scan advances |
| TokenBuffer.AppendedText | src/lib/cnc_buffer.c:46-78 | cb_append_txt pushes the text's tokens in turn and stops with false at the first undecodable sequence, keeping what it pushed |
| TokenBuffer.AppendTextIsPushAll | src/lib/cnc_buffer.c:28-78 | appending text is pushing the text's tokens, and fails exactly when the text does not decode |
| TokenBuffer.CStrLen | src/lib/cnc_buffer.c:351-375 | strlen: the index of the first NUL, with no NUL before it |
| TokenBuffer.ParseTextCount | src/lib/cnc_buffer.c:351-375 | every token takes at least one byte, so a text has at most strlen tokens |
| TokenBuffer.SameTokensIffEqual | src/lib/cnc_buffer.c:158-179 | on tokens with no bytes past their length, cb_equal's token-by-token ctt_equal is plain equality of the contents |
| TokenBuffer.Spliced | src/lib/cnc_buffer.c:377-414 | overwriting n places from d splices src[s..s+n] into the contents and keeps their length |
| TokenBuffer.Buffer.constructor | src/lib/cnc_buffer.c:218-245 | cb_init refuses a maximum capacity of 0; otherwise the buffer is empty with capacity min(max_capacity, 256) |
| TokenBuffer.Buffer.Reallocate | src/lib/cnc_buffer.c:432-451 | realloc keeps the old slots and grows the array to the new capacity (with lines 505-541) |
| TokenBuffer.Buffer.ShiftDown | src/lib/cnc_buffer.c:7-25 | the memmove of _cb_scroll and cb_insert: the first tokens are dropped and the rest move to the front (with lines 279-290) |
| TokenBuffer.Buffer.Push | src/lib/cnc_buffer.c:416-463 | cb_push fails only on an unallocated buffer and otherwise leaves the state the push specification gives |
| TokenBuffer.Buffer.Store | src/lib/cnc_buffer.c:460 | the last step of cb_push: the token goes into the first free slot |
| TokenBuffer.Buffer.AppendBuffer | src/lib/cnc_buffer.c:28-44 | cb_append_buf succeeds exactly when both buffers hold data; it pushes every token of another source buffer, and with the buffer as its own source it runs the loop AppendSelf describes |
| TokenBuffer.Buffer.AppendToSelf | src/lib/cnc_buffer.c:35-41 | the loop of cb_append_buf(b, b), whose bound is the size its own pushes move, computes AppendSelf |
| TokenBuffer.AppendSelfFills | src/lib/cnc_buffer.c:35-41 | appending a non-empty buffer to itself only stops once the buffer has reached its maximum capacity |
| TokenBuffer.Buffer.AppendText | src/lib/cnc_buffer.c:46-78 | cb_append_txt leaves the result and state of the appended-text specification |
| TokenBuffer.Buffer.Clear | src/lib/cnc_buffer.c:80-89 | cb_clear zeroes the used slots and empties the buffer, keeping its capacity |
| TokenBuffer.Buffer.DataWidth | src/lib/cnc_buffer.c:115-142 | cb_data_width is 0 from a start at or past the end, and otherwise the width sum of CHAR and UTF8 tokens over the clamped range |
| TokenBuffer.Buffer.DataLength | src/lib/cnc_buffer.c:91-113 | cb_data_length is 0 from a start at or past the end, and otherwise the byte-length sum over the range clamped to the end of the buffer |
| TokenBuffer.Buffer.Equal | src/lib/cnc_buffer.c:158-179 | cb_equal holds exactly when both buffers are allocated and agree token by token under ctt_equal |
| TokenBuffer.Buffer.Get | src/lib/cnc_buffer.c:208-216 | cb_get returns the token at index exactly when the index is inside the buffer |
| TokenBuffer.Buffer.Insert | src/lib/cnc_buffer.c:247-304 | cb_insert fails exactly for an index past the size, and otherwise leaves the state of the insertion specification |
| TokenBuffer.Buffer.MakeRoom | src/lib/cnc_buffer.c:254-291 | a full buffer grows, or drops its oldest token and moves the insertion point down |
| TokenBuffer.Buffer.PlaceAt | src/lib/cnc_buffer.c:293-301 | the tokens from the insertion point move up one slot and the token fills the gap |
| TokenBuffer.Buffer.ShiftUp | src/lib/cnc_buffer.c:293-298 | the memmove of cb_insert: the tokens from the insertion point move up one slot |
| TokenBuffer.Buffer.Remove | src/lib/cnc_buffer.c:465-481 | cb_remove fails and changes nothing for an index at or past the size; otherwise the contents become old[..i] + old[i+1..] |
| TokenBuffer.Buffer.LocateBuffer | src/lib/cnc_buffer.c:306-349 | fails on an empty buffer or a longer needle; an empty needle is found at 0; otherwise the lowest position where every token matches under ctt_equal, and failure when there is none |
| TokenBuffer.Buffer.LocateText | src/lib/cnc_buffer.c:351-375 | cb_locate_c_str locates the text's tokens, and never finds an empty or undecodable text |
| TokenBuffer.Buffer.EqualText | src/lib/cnc_buffer.c:181-206 | cb_equal_c_str holds exactly when the text is non-empty, decodes, and its tokens equal the contents |
| TokenBuffer.Buffer.Overwrite | src/lib/cnc_buffer.c:377-414 | cb_overwrite copies min(length, src.size - src_start, dst.size - dst_start) of the source's original tokens, also from the buffer itself when the ranges do not overlap; it fails when that is 0, and never changes the size |
| TokenBuffer.Buffer.CopyIn | src/lib/cnc_buffer.c:410-411 | the memcpy of cb_overwrite splices the source's original tokens in, from another buffer or from a range of the same one that does not overlap |
| TokenBuffer.Buffer.Replace | src/lib/cnc_buffer.c:483-503 | every token ctt_equal to the pattern becomes the replacement, the others stay, the size stays, and the result says whether any matched |
| TokenBuffer.Buffer.Resize | src/lib/cnc_buffer.c:505-541 | cb_resize refuses 0 and sizes above the maximum; otherwise the capacity becomes the new one and the first tokens that fit are kept |
| TokenBuffer.Buffer.Set | src/lib/cnc_buffer.c:543-553 | cb_set stores the token in its slot without changing the size |
| TokenBuffer.Buffer.SetBuffer | src/lib/cnc_buffer.c:555-565 | cb_set_buf succeeds exactly when both buffers hold data; it clears, then pushes every token of another source, and with the buffer as its own source it leaves it empty |
| TokenBuffer.Buffer.SetText | src/lib/cnc_buffer.c:567-577 | cb_set_txt clears, then appends the text |
| TokenBuffer.Buffer.SetCStr | src/lib/cnc_buffer.c:579-615 | cb_set_c_str fails on a buffer without data and leaves the destination alone; otherwise it succeeds exactly when the text bytes and a NUL fit in the destination, and then writes them |
| TokenBuffer.Buffer.CopyText | src/lib/cnc_buffer.c:588-605 | the token loop of cb_set_c_str copies the bytes and stops at the first token that would leave no room for the NUL |
| TokenBuffer.TextBuffer | src/lib/cnc_buffer.c:181-206 | the temporary buffer built from a text holds exactly the text's tokens when it decodes (with lines 351-375) |
| TokenBuffer.WriteBytes | src/lib/cnc_buffer.c:600-603 | the byte loop of cb_set_c_str copies the token bytes into the destination from the given offset |
| TokenBuffer.InsertedAfterRoom | src/lib/cnc_buffer.c:247-304 | inserting is making room (growing, or dropping the oldest token) and inserting at the adjusted index |
| TokenBuffer.TextBufferHoldsTokens | src/lib/cnc_buffer.c:181-206 | a buffer set from a text whose maximum is the text's length loses none of its tokens (with lines 351-375) |
| Cursor.MovedDown | src/lib/cnc_cursor.c:3-19 | cc_move_down moves one row down, only with change_rows set and a row below, keeping the column; anything off screen refuses |
| Cursor.MovedUp | src/lib/cnc_cursor.c:72-88 | cc_move_up moves one row up, only with change_rows set and a row above, keeping the column; anything off screen refuses |
| Cursor.MovedLeft | src/lib/cnc_cursor.c:21-45 | cc_move_left moves one column left, and from column 1 to the last column of the row above only with change_rows set |
| Cursor.MovedRight | src/lib/cnc_cursor.c:47-70 | cc_move_right moves one column right, and from the last column to column 1 of the row below only with change_rows set |
| Cursor.Positioned | src/lib/cnc_cursor.c:90-101 | cc_set_position commits exactly a position with 1 <= row <= max_row and 1 <= col <= max_col, and otherwise changes nothing |
| Cursor.SetUp | src/lib/cnc_cursor.c:103-116 | cc_setup succeeds exactly for positive maxima and puts the cursor at (1, 1); change_rows is left alone |
| Cursor.MovesStayOnScreen | src/lib/cnc_cursor.c:3-88 | every move keeps the cursor on the screen and never changes the maxima or change_rows; a cursor off the screen refuses every move |
| Cursor.HorizontalMovesStepOne | src/lib/cnc_cursor.c:21-70 | a successful left or right move steps exactly one place in reading order, the row wrap included |
| Cursor.VerticalMovesStepOneRow | src/lib/cnc_cursor.c:3-19 | a successful up or down move steps exactly one row, max_col places in reading order (with lines 72-88) |
| Cursor.LeftRightInverse | src/lib/cnc_cursor.c:21-70 | left undoes a successful right and right undoes a successful left |
| Cursor.UpDownInverse | src/lib/cnc_cursor.c:3-19 | up undoes a successful down and down undoes a successful up (with lines 72-88) |
| Cursor.FixedRow | src/lib/cnc_cursor.c:3-88 | without change_rows no move changes the row |
| Cursor.Cursor.constructor | src/lib/cnc_cursor.c:103-116 | a zero-filled cursor, as the terminal holds one before cc_setup |
| Cursor.Cursor.MoveDown | src/lib/cnc_cursor.c:3-19 | the cursor object moves as the cc_move_down specification says and reports whether it moved |
| Cursor.Cursor.MoveLeft | src/lib/cnc_cursor.c:21-45 | the cursor object moves as the cc_move_left specification says and reports whether it moved |
| Cursor.Cursor.MoveRight | src/lib/cnc_cursor.c:47-70 | the cursor object moves as the cc_move_right specification says and reports whether it moved |
| Cursor.Cursor.MoveUp | src/lib/cnc_cursor.c:72-88 | the cursor object moves as the cc_move_up specification says and reports whether it moved |
| Cursor.Cursor.SetPosition | src/lib/cnc_cursor.c:90-101 | the cursor object commits a position exactly as the cc_set_position specification says |
| Cursor.Cursor.Setup | src/lib/cnc_cursor.c:103-116 | the cursor object is set up exactly as the cc_setup specification says |
| Widget.BufferSize | src/lib/cnc_widget.c:47-72 | the buffer maximum cw_init asks for: 511 for info and prompt, 99999 for display, 0 for a title |
| Widget.ForegroundsAreParsed | src/lib/cnc_widget.c:36-69 | the foreground colours cw_init uses are the tokens ctt_parse_value gives for their codes |
| Widget.BackgroundsAreParsed | src/lib/cnc_widget.c:36-69 | the background colours cw_init uses are the tokens ctt_parse_value gives for their codes |
| Widget.InitialColors | src/lib/cnc_widget.c:36-69 | info gets main green on black and alt yellow on black, a prompt gets cyan and red foregrounds, and every other slot keeps KS_NON___ |
| Widget.NoColorIsBlanks | src/lib/cnc_widget.c:36-45 | the no-colour token every colour slot starts with is the table entry of five blank bytes |
| Widget.Initial | src/lib/cnc_widget.c:25-72 | origin (1, 1), height 2, width 1, both indices 0, no focus; can_focus false for info, true for prompt and display, unset for a title |
| Widget.Init | src/lib/cnc_widget.c:16-75 | cw_init builds the initial fields around a fresh buffer of the kind's maximum; a title's buffer is refused by cb_init, which the model represents as an empty buffer without data (see "## Left out") |
| Widget.Reset | src/lib/cnc_widget.c:77-87 | cw_reset empties the buffer and zeroes both indices, leaving frame, colours and focus flags unchanged |
| Keys.ExpectedLength | src/lib/cnc_terminal.c:247-258 | the UTF-8 length expected from a lead byte: 1 below 0x80, 0 exactly for continuation bytes and bytes from 0xF8 |
| Keys.FirstNonContinuation | src/lib/cnc_terminal.c:261-268 | the first byte in the range that is not a continuation byte, every byte before it being one |
| Keys.Getch | src/lib/cnc_terminal.c:226-288 | _ct_getch on the waiting bytes reads at least one byte when there is one and never more than are waiting |
| Keys.GetchCursorKeys | src/lib/cnc_terminal.c:276-287 | every cursor key's escape sequence, waiting on input, reads as that key's table token |
| Keys.GetchCursorKey | src/lib/cnc_terminal.c:276-287 | one cursor key: the escape is read whole and its byte sum finds the entry |
| Keys.GetchPrintable | src/lib/cnc_terminal.c:237-240 | a printable ASCII key alone on input reads as its CHAR token of width 1 |
| Keys.GetchUtf8 | src/lib/cnc_terminal.c:243-273 | the UTF-8 bytes of a non-key code point read back as that code point's UTF8 token, whatever waits behind them |
| Keys.MiddleDotIsArrowUp | src/lib/cnc_terminal.c:237-287 | U+00B7 typed as UTF-8, the lone byte 0xB7 and the up-arrow escape all read as 183, which the command map takes for the up arrow (with lines 1197-1201) |
| Keys.MiddleDotDecodes | src/lib/cnc_term_token.c:92-112 | the two UTF-8 bytes of U+00B7 decode to 183 |
| Keys.ArrowUpSum | src/lib/cnc_terminal.c:276-287 | the up arrow's escape bytes sum to 183 |
| Keys.Lookup | src/lib/cnc_terminal.c:1276-1284 | the scan of the command map finds an entry pairing the key with the command, and finds nothing exactly when no entry has the key |
| Keys.CommandKeysDistinct | src/lib/cnc_terminal.c:1197-1223 | no key appears twice in the command map and none is the 0 end marker |
| Keys.LookupIffEntry | src/lib/cnc_terminal.c:1197-1223 | a key runs a command exactly when the map pairs them (with lines 1276-1284) |
| TerminalRules.FirstOther | src/lib/cnc_terminal.c:1100-1107 | the scan of ct_focus_widget: the first other widget with the focus, none of the others before it having it |
| TerminalRules.RefocusedIsOnlyFocus | src/lib/cnc_terminal.c:1088-1111 | with at most one focused widget before, exactly the target has the focus after ct_focus_widget moves it |
| TerminalRules.FocusStep | src/lib/cnc_terminal.c:1076-1085 | the scan of ct_focus_next finds the first step whose widget (f + step) % n can take the focus, and none of the steps before it can |
| TerminalRules.Slot | src/lib/cnc_terminal.c:1078 | (f + step) % n in size_t, for f = -1 as the all-ones size_t: f + step below n, or f + step - n |
| TerminalRules.FocusNextIsNearest | src/lib/cnc_terminal.c:1053-1086 | ct_focus_next visits every widget once, the focused one last: it finds nothing exactly when no widget can take the focus, and otherwise the nearest focusable widget after the focused one |
| TerminalRules.FirstFocused | src/lib/cnc_terminal.c:1065-1074 | the index of the first widget with the focus, or -1 when none has it |
| TerminalRules.WithFlags | src/lib/cnc_terminal.c:1088-1111 | the widgets with their has_focus flags replaced and nothing else changed |
| TerminalRules.FocusAppliedIsOnlyFocus | src/lib/cnc_terminal.c:1088-1111 | ct_focus_widget ignores an unfocusable or already focused target, changes has_focus flags only, and leaves the target as the only focused widget |
| TerminalRules.DisplayCount | src/lib/cnc_terminal.c:1488-1502 | mlw: the number of display widgets, positive whenever there is one |
| TerminalRules.LaidOut | src/lib/cnc_terminal.c:1513-1536 | the height ct_setup_widgets gives each widget: its own for a two-line widget, (rows - 2 tlw) / mlw for each display but the last, the remainder for the last |
| TerminalRules.LayoutPrefix | src/lib/cnc_terminal.c:1513-1536 | the rows the first k laid-out widgets take: two per two-line widget, a share per display, all display rows once the last display is among them |
| TerminalRules.LaidOutAt | src/lib/cnc_terminal.c:1518-1531 | the height of widget i in terms of its kind and the displays before it |
| TerminalRules.LayoutFillsScreen | src/lib/cnc_terminal.c:1477-1539 | the laid-out heights sum to the screen's rows when there is a display, and to two rows per widget otherwise |
| TerminalRules.LayoutHeights | src/lib/cnc_terminal.c:1477-1539 | two-line widgets keep their rows and every display gets at least three |
| TerminalRules.Arranged | src/lib/cnc_terminal.c:1513-1536 | the widgets after ct_setup_widgets: same length, each with its laid-out height, the screen's width and the next free row |
| TerminalRules.ArrangedAt | src/lib/cnc_terminal.c:1513-1536 | widget k after the layout: its laid-out height, and one plus the rows above it as its origin, with no wrap-around |
| TerminalRules.ArrangedStacks | src/lib/cnc_terminal.c:1477-1539 | after ct_setup_widgets the widgets are stacked from row 1 with no gap or overlap, span the width, and change nothing but their frame |
| TerminalRules.ArrangedFills | src/lib/cnc_terminal.c:1477-1539 | after ct_setup_widgets two-line widgets keep two rows, displays have at least three, and the widgets fill the screen exactly when there is a display |
| TerminalRules.StepRight | src/lib/cnc_terminal.c:873-896 | _ct_vm_l on a prompt changes only the cursor and the view |
| TerminalRules.StepLeft | src/lib/cnc_terminal.c:797-822 | _ct_vm_h on a prompt changes only the cursor and the view |
| TerminalRules.CursorStepsStayInData | src/lib/cnc_terminal.c:797-822 | 'l' advances the cursor exactly when it is before the end, 'h' moves it back exactly when it is past the start, both keep 0 <= data_index <= size, and 'h' undoes a successful 'l' (with lines 873-896) |
| TerminalRules.StepIndices | src/lib/cnc_terminal.c:797-822 | where one 'l' and one 'h' put the cursor inside data of a given size (with lines 873-896) |
| TerminalRules.SkipRight | src/lib/cnc_terminal.c:780-792 | repeated 'l' over blanks or non-blanks stops at the end or at the first token of the other kind, all tokens passed being of the skipped kind |
| TerminalRules.SkipLeft | src/lib/cnc_terminal.c:736-748 | repeated 'h' over blanks or non-blanks stops at the start or at the first token of the other kind, all tokens passed being of the skipped kind |
| TerminalRules.WordEndLands | src/lib/cnc_terminal.c:756-795 | 'e' moves the cursor to the end of the first word that ends after it, skipping no word end, and with no word ahead onto the last token |
| TerminalRules.WordEndOfRuns | src/lib/cnc_terminal.c:756-795 | the positions behind 'e': one step right, a run of blanks, a run of non-blanks, one step back |
| TerminalRules.WordBackLands | src/lib/cnc_terminal.c:712-754 | 'b' moves the cursor back to the start of the nearest word that starts before it, skipping no word start, or to 0 |
| TerminalRules.WordBackLeadingBlank | src/lib/cnc_terminal.c:712-754 | with a blank first token, 'b' from the end overshoots the word start at 1 and lands on 0 |
| TerminalRules.FitFrom | src/lib/cnc_terminal.c:662-668 | the index loop of _ct_vm_$: the first index from which the tail, after the prompt symbol and the last token, fits the frame |
| TerminalRules.EndOfLine | src/lib/cnc_terminal.c:642-677 | _ct_vm_$ puts the cursor past the last token and scrolls the view until the tail fits the frame |
| TerminalRules.StartOfLine | src/lib/cnc_terminal.c:611-640 | _ct_vm_0 on a prompt puts the cursor and the view back at the start |
| TerminalRules.AppendStep | src/lib/cnc_terminal.c:679-699 | _ct_vm_a steps the cursor past the token under it without scrolling |
| TerminalRules.TypeThenBackspace | src/lib/cnc_terminal.c:296-323 | a token typed below the maximum lands under the cursor, the cursor moves past it and stays within the data, and a backspace gives the old tokens back (with lines 1150-1176) |
| TerminalRules.DisplayLastRows | src/lib/cnc_terminal.c:611-640 | _ct_vm_0 on a display shows the last height rows when there are more |
| TerminalRules.ScrolledDown | src/lib/cnc_terminal.c:824-846 | _ct_vm_j on a display changes only the view's first row |
| TerminalRules.ScrolledUp | src/lib/cnc_terminal.c:848-871 | _ct_vm_k on a display changes only the view's first row, and only from above 0 |
| TerminalRules.ScrollDownThenUp | src/lib/cnc_terminal.c:824-871 | 'j' moves the view one row down while rows remain below it, never past the last row, and 'k' undoes it |
| TerminalRules.PagedDown | src/lib/cnc_terminal.c:325-366 | _ct_page_dn on a display changes only the view's first row |
| TerminalRules.PagedUp | src/lib/cnc_terminal.c:368-405 | _ct_page_up on a display changes only the view's first row |
| TerminalRules.PageUpMovesBack | src/lib/cnc_terminal.c:368-405 | page-up moves the view back by height - 2 rows, or to the top within a page of it, and never forward |
| TerminalRules.PageDownMovesForward | src/lib/cnc_terminal.c:325-366 | with more than two pages below, page-down moves forward by height - 2 rows inside the data; near the end it shows the last height rows |
| TerminalRules.PageDownShortDisplay | src/lib/cnc_terminal.c:344-346 | on a display holding fewer rows than its height the subtraction wraps and the first visible row becomes 2^64 - 2 |
| TerminalRules.Route | src/lib/cnc_terminal.c:1243-1287 | in Insert mode at a prompt, Enter/Return submits and printable or UTF-8 tokens are typed; every other key runs the first command-map entry for its value |
| TerminalRules.Returned | src/lib/cnc_terminal.c:1243-1287 | ct_get_user_input returns C_ENT for either line end at a prompt, and the token's value otherwise |
| TerminalRules.RouteTypesOrRuns | src/lib/cnc_terminal.c:1197-1287 | at an Insert-mode prompt every printable key types itself; in Command mode or away from a prompt every key runs exactly what the command map pairs it with |
| Terminal.ScrollDownTarget | src/lib/cnc_terminal.c:824-846 | 'j' scrolls the focused display when it can scroll, and otherwise the main display when that one can; what it picks is a display that can scroll |
| Terminal.ScrollUpTarget | src/lib/cnc_terminal.c:848-871 | 'k' scrolls the focused display when its view is below the top, and otherwise the main display when that one is |
| Terminal.PageTarget | src/lib/cnc_terminal.c:325-405 | the page keys act on the focused display, and otherwise on the main display when there is one |
| Terminal.Terminal.constructor | src/lib/cnc_terminal.c:1289-1415 | ct_init past its I/O: the screen size read, no widgets, no focus, no main display, both switches on, Command mode |
| Terminal.Terminal.FocusedWidget | src/lib/cnc_terminal.c:1113-1127 | ct_focused_widget returns the first widget with has_focus, and none exactly when no widget has it |
| Terminal.Terminal.SetMode | src/lib/cnc_terminal.c:1452-1475 | the mode changes only while can_change_mode is set, and nothing else changes |
| Terminal.Terminal.EnterCommandMode | src/lib/cnc_terminal.c:541-556 | Command mode only with a prompt focused and mode changes allowed; nothing else changes |
| Terminal.Terminal.EnterInsertMode | src/lib/cnc_terminal.c:558-573 | Insert mode only with a prompt focused and mode changes allowed; nothing else changes |
| Terminal.Terminal.FocusWidget | src/lib/cnc_terminal.c:1088-1111 | the widget list becomes FocusApplied of the target, and the focused widget becomes the target exactly when it takes the focus |
| Terminal.Terminal.FocusNext | src/lib/cnc_terminal.c:1053-1086 | nothing changes while focus changes are off or no widget is focusable; otherwise the focus goes to the widget FocusStep and Slot pick after the first focused one |
| Terminal.Terminal.HeightSum | src/lib/cnc_terminal.c:933-938 | the loop of ct_add_widget sums the heights of all widgets |
| Terminal.Terminal.AddWidget | src/lib/cnc_terminal.c:919-968 | the widget is refused exactly when its two rows no longer fit; otherwise it goes at the end with a fresh buffer, live for every kind but a title, sized for its kind, and takes the focus when it can |
| Terminal.Terminal.CountKinds | src/lib/cnc_terminal.c:1484-1502 | the first loop of ct_setup_widgets counts the displays and the two-line widgets |
| Terminal.Terminal.SetupWidgets | src/lib/cnc_terminal.c:1477-1539 | ct_setup_widgets succeeds exactly when the layout fits; it then arranges the widgets as Arranged says, and otherwise changes nothing |
| Terminal.Terminal.MoveCursorRight | src/lib/cnc_terminal.c:873-896 | _ct_vm_l moves the focused prompt as StepRight says and leaves every other focus unchanged |
| Terminal.Terminal.MoveCursorLeft | src/lib/cnc_terminal.c:797-822 | _ct_vm_h moves the focused prompt as StepLeft says and leaves every other focus unchanged |
| Terminal.Terminal.MoveToWordEnd | src/lib/cnc_terminal.c:756-795 | _ct_vm_e moves the focused prompt to the word end WordEndLands describes |
| Terminal.Terminal.MoveToWordStart | src/lib/cnc_terminal.c:712-754 | _ct_vm_b moves the focused prompt to the word start WordBackLands describes |
| Terminal.Terminal.MoveToLineEnd | src/lib/cnc_terminal.c:642-677 | _ct_vm_$ puts a focused prompt's cursor at its end with the tail in view, and puts a focused display back at its top |
| Terminal.Terminal.MoveToLineStart | src/lib/cnc_terminal.c:611-640 | _ct_vm_0 puts a focused prompt back at its start, and shows a focused display's last rows |
| Terminal.Terminal.AppendAfterCursor | src/lib/cnc_terminal.c:679-699 | _ct_vm_a on a focused prompt enters Insert mode (when allowed) and steps the cursor past the token under it |
| Terminal.Terminal.AppendAtLineEnd | src/lib/cnc_terminal.c:701-710 | _ct_vm_aa is '$' and then Insert mode at a prompt |
| Terminal.Terminal.DeleteUnderCursor | src/lib/cnc_terminal.c:898-916 | _ct_vm_x removes the token under a prompt's cursor, does nothing at the end, and moves no cursor |
| Terminal.Terminal.DeleteBeforeCursor | src/lib/cnc_terminal.c:1150-1176 | Backspace in Insert mode past a prompt's start removes the token before the cursor and steps cursor and view back; otherwise nothing changes |
| Terminal.Terminal.InsertToken | src/lib/cnc_terminal.c:296-323 | _ct_insert_token puts the token into the focused prompt's buffer at the cursor and moves cursor and view as AfterInsert says |
| Terminal.Terminal.ScrollViewDown | src/lib/cnc_terminal.c:824-846 | 'j' moves the display ScrollDownTarget picks one row down, and changes nothing when it picks none |
| Terminal.Terminal.ScrollViewUp | src/lib/cnc_terminal.c:848-871 | 'k' moves the display ScrollUpTarget picks one row up, and changes nothing when it picks none |
| Terminal.Terminal.PageViewDown | src/lib/cnc_terminal.c:325-366 | page-down applies PagedDown to the display PageTarget picks |
| Terminal.Terminal.PageViewUp | src/lib/cnc_terminal.c:368-405 | page-up applies PagedUp to the display PageTarget picks |
| Terminal.Terminal.RunCommand | src/lib/cnc_terminal.c:1276-1284 | running any command of the map keeps the terminal's invariant and its settings |
| Terminal.Terminal.Dispatch | src/lib/cnc_terminal.c:1186-1287 | ct_get_user_input returns what Returned says; a submit changes nothing; a typed token goes into the prompt's buffer at the cursor while below the maximum |
| Terminal.ArrangedKeepsShape | src/lib/cnc_terminal.c:1477-1539 | arranging the widgets keeps the terminal's invariant and the set of buffers |
| Terminal.FramesKeepShape | src/lib/cnc_terminal.c:1513-1536 | new frames within the screen's rows keep the shape of the terminal and its buffers |
| Terminal.NextHeight | src/lib/cnc_terminal.c:1518-1531 | one widget of the layout loop gets the height LaidOut gives it |
| Terminal.ArrangeWidgets | src/lib/cnc_terminal.c:1504-1536 | the layout loop yields exactly Arranged: full width, laid-out height, next free row |
| Terminal.ReplaceKeepsViews | src/lib/cnc_terminal.c:611-916 | a motion that keeps a widget's kind, height, focus flags and buffer keeps every view of the list and the invariant |
| Terminal.PagedDownOf | src/lib/cnc_terminal.c:335-349 | the body of _ct_page_dn computes PagedDown |
| Terminal.FocusedIndexOf | src/lib/cnc_terminal.c:1065-1074 | the first loop of ct_focus_next finds FirstFocused |
| Terminal.FocusableStepOf | src/lib/cnc_terminal.c:1076-1085 | the second loop of ct_focus_next finds FocusStep |
| Terminal.StepRightOf | src/lib/cnc_terminal.c:887-895 | the body of _ct_vm_l computes StepRight |
| Terminal.StepLeftOf | src/lib/cnc_terminal.c:811-821 | the body of _ct_vm_h computes StepLeft |
| Terminal.BlankUnder | src/lib/cnc_terminal.c:776-791 | the blank test under the cursor agrees with SpaceAt on the buffer's contents |
| Terminal.WordEndOf | src/lib/cnc_terminal.c:770-794 | the body of _ct_vm_e computes EndOfWord |
| Terminal.SkipRightOf | src/lib/cnc_terminal.c:780-792 | each loop of _ct_vm_e computes SkipRight |
| Terminal.WordStartOf | src/lib/cnc_terminal.c:726-753 | the body of _ct_vm_b computes StartOfWord |
| Terminal.SkipLeftOf | src/lib/cnc_terminal.c:736-748 | each loop of _ct_vm_b computes SkipLeft |
| Terminal.LineEndOf | src/lib/cnc_terminal.c:656-670 | the prompt branch of _ct_vm_$ computes EndOfLine |
| Terminal.TailWidthFrom | src/lib/cnc_terminal.c:662-665 | cb_data_width over the tail, as _ct_vm_$ calls it, is the tail's width |
| Terminal.FitStep | src/lib/cnc_terminal.c:662-668 | a tail that does not fit starts inside the data, so the index loop of _ct_vm_$ ends |
| Terminal.InsertIntoPrompt | src/lib/cnc_terminal.c:296-323 | cb_insert at the cursor, then cursor and view as AfterInsert says, keeping the cursor within the data |
| Terminal.RemoveFromPrompt | src/lib/cnc_terminal.c:1164-1175 | cb_remove of the token before the cursor, then one step back of cursor and view |
| Terminal.ScrollAfterInsert | src/lib/cnc_terminal.c:302-320 | the width measurement after cb_insert moves cursor and view as AfterInsert says |
| Terminal.AfterInsertIs | src/lib/cnc_terminal.c:304-320 | AfterInsert agrees with the scroll rule stated on the measured width |
| Terminal.EditKeepsViews | src/lib/cnc_terminal.c:296-323 | an edit of the focused prompt's buffer keeps the terminal's invariant (with lines 898-916, 1150-1176) |
| Terminal.FocusChangeKeepsValid | src/lib/cnc_terminal.c:1053-1111 | changing has_focus flags only keeps the invariant |
| Terminal.AppendKeepsValid | src/lib/cnc_terminal.c:919-968 | appending an unfocused widget with its own buffer within the rows keeps the invariant |
| Terminal.TailWindow | src/lib/cnc_terminal.c:662-665 | what cb_data_width returns over one more token than remain is the tail's width |
| Terminal.LaidOutStep | src/lib/cnc_terminal.c:1518-1531 | one step of the layout loop: how the display count grows and the height widget i gets |
| Compositor.ColorCodeToColor | src/lib/cnc_terminal.c:156-217 | a code sets the foreground exactly when it is one of the eight foreground codes, the background exactly when it is one of the eight background codes, and nothing otherwise |
| Compositor.ForegroundCodes | src/lib/cnc_terminal.c:163-188 | a foreground code selects the token ctt_parse_value builds for that code, and that token carries the code as its value |
| Compositor.BackgroundCodes | src/lib/cnc_terminal.c:189-212 | a background code selects the token ctt_parse_value builds for that code, and that token carries the code as its value |
| Compositor.TableColorsRoundTrip | src/lib/cnc_terminal.c:156-217 | every colour entry of the table selects itself after C_COL, foregrounds as op 2 and backgrounds as op 1, and is a zero-width style token |
| Compositor.EmptyRow | src/lib/cnc_terminal.c:502-506 | _ct_render_empty_row writes exactly `n` bytes, every one a space |
| Compositor.ResetIsParsed | src/lib/cnc_terminal.c:473-477 | the reset sequence is the payload of the KS_RST___ token |
| Compositor.SpaceTokenIsParsed | src/lib/cnc_terminal.c:1550 | the space token is ctt_parse_value of C_SPC and writes one space |
| Compositor.LineTokenIsParsed | src/lib/cnc_terminal.c:456-464 | the line token is ctt_parse_value of U+2500: one column, three bytes |
| Compositor.SpaceTokens | src/lib/cnc_terminal.c:492-499 | `n` space tokens take `n` columns and write the empty row of `n` |
| Compositor.BorderRowShape | src/lib/cnc_terminal.c:456-464 | a border row is `n` columns wide and writes three bytes per column |
| Compositor.RenderDataFillsRow | src/lib/cnc_terminal.c:479-500 | a rendered data row writes the shown tokens and then padding spaces, together exactly `rowWidth` columns |
| Compositor.RenderDataOf | src/lib/cnc_terminal.c:479-500 | _ct_render_data's loops compute RenderData over the buffer's tokens |
| Compositor.BorderRowOf | src/lib/cnc_terminal.c:456-464 | _ct_render_border_row's loop computes BorderRow |
| Compositor.ParsedTokensAreHonest | src/lib/cnc_term_token.c:171-246 | every token ctt_parse_value builds has a width that matches what it draws: table entries and invalid tokens have width zero |
| Compositor.RawWidthIsWidthSum | src/lib/cnc_buffer.c:115-142 | on honest tokens, the columns drawn and cb_data_width's sum agree |
| Compositor.ControlTokensAreParsed | src/lib/cnc_terminal.c:1548-1551 | the newline, return and blank tokens are ctt_parse_value of C_ENT, C_RET and C_USC |
| Compositor.Flattened | src/lib/cnc_terminal.c:1574-1575 | replacing the line breaks keeps the number of tokens |
| Compositor.OneLineClearsBreaks | src/lib/cnc_terminal.c:1574-1575 | after the replacement no newline or return is left, a second replacement changes nothing, and honest tokens stay honest |
| Compositor.FlattenLineBreaks | src/lib/cnc_terminal.c:1574-1575 | the two cb_replace calls leave the buffer's tokens Flattened |
| Compositor.FitEnd | src/lib/cnc_terminal.c:1643-1659 | the end the do-while loop picks lies between the view's first token and the end of the data |
| Compositor.FitEndIsLargest | src/lib/cnc_terminal.c:1643-1659 | the window the loop picks fits the line, and every longer window up to the end of the data does not |
| Compositor.UpperBound | src/lib/cnc_terminal.c:1643-1659 | the do-while loop over cb_data_width stops at u_bound = FitEnd - 1 |
| Compositor.FitShown | src/lib/cnc_terminal.c:1653-1662 | the tokens shown on a one-line widget take at most the line's width |
| Compositor.LineText | src/lib/cnc_terminal.c:1643-1663 | an empty buffer shows a blank row, and otherwise the fitting tokens padded to the row |
| Compositor.OneLineParts | src/lib/cnc_terminal.c:1568-1678 | the output of a one-line widget starts with a blank row and a line break for an info or prompt, and none for a title |
| Compositor.RenderOneLine | src/lib/cnc_terminal.c:1568-1678 | ct_update on one title, info or prompt flattens its line breaks and writes the bytes OneLineBytes describes: colours, prompt symbol, text, reset, border |
| Compositor.OneLineRow | src/lib/cnc_terminal.c:1585-1678 | for a one-line widget with no line breaks left, the appended row is exactly OneLineBytes: colours, prompt symbol, visible text, reset, border and a newline unless it is the last row |
| Compositor.LeadingNewlineAsWritten | src/lib/cnc_terminal.c:1732-1754 | as written, a newline at index 0 is drawn by the row it closes, and the next row starts at 2, so the token at 1 is in no row |
| Compositor.NewlineCloseAsWritten | src/lib/cnc_terminal.c:1732-1754 | the newline branch as written closes the row at counter - 1 (0 at counter 0) and starts the next row two past that end, so at 2 after a newline at index 0 (LeadingNewlineAsWritten, NewlineCloseAgrees) |
| Compositor.NewlineClose | src/lib/cnc_terminal.c:1732-1754 | the row a newline closes holds exactly the tokens from its first up to the newline, and the next row starts right after the newline with the colours kept |
| Compositor.NewlineCloseAgrees | src/lib/cnc_terminal.c:1732-1754 | the corrected newline rule agrees with the code at every index but 0 |
| Compositor.WindowStep | src/lib/cnc_buffer.c:115-142 | one more token adds its width to a window when it is text |
| Compositor.WindowMono | src/lib/cnc_buffer.c:115-142 | a longer window is never narrower |
| Compositor.OverflowNeedsTwoTokens | src/lib/cnc_terminal.c:1757-1789 | a row only overflows the screen once it holds two tokens |
| Compositor.SkipBlanks | src/lib/cnc_terminal.c:1767-1771 | the whitespace loop after a wrap stops at the first token that is not a space or tab, or at the end |
| Compositor.ColoredRow | src/lib/cnc_terminal.c:1798-1817 | a colour code changes a row's colours and never its range |
| Compositor.WrapStep | src/lib/cnc_terminal.c:1725-1820 | one turn of the calculation loop keeps the pass's invariant and always makes progress |
| Compositor.Wrapped | src/lib/cnc_terminal.c:1725-1820 | the calculation loop ends with the counter at the end of the tokens, its invariant kept |
| Compositor.SkipBlanksOf | src/lib/cnc_terminal.c:1767-1771 | the whitespace loop over the buffer computes SkipBlanks |
| Compositor.WrapStepOf | src/lib/cnc_terminal.c:1725-1820 | one turn of the loop over the buffer computes WrapStep |
| Compositor.WrapPass | src/lib/cnc_terminal.c:1691-1820 | the calculation phase stores the rows WrapRows gives |
| Compositor.WrapStepPlaced | src/lib/cnc_terminal.c:1725-1820 | every turn keeps the stored rows inside the tokens, in order and each within a screen width |
| Compositor.WrappedPlaced | src/lib/cnc_terminal.c:1725-1820 | the whole loop keeps the placement of the stored rows |
| Compositor.WrapRowsPlaced | src/lib/cnc_terminal.c:1691-1820 | the rows of the pass lie inside the tokens, come in order without overlapping, and each fits the screen's width |
| Compositor.WrapStepCovered | src/lib/cnc_terminal.c:1725-1820 | every turn keeps each passed token drawn unless it is a newline or a space or tab it breaks at |
| Compositor.WrappedCovered | src/lib/cnc_terminal.c:1725-1820 | the whole loop keeps every passed token covered |
| Compositor.WrapRowsCover | src/lib/cnc_terminal.c:1691-1820 | when no colour code comes right before a newline, no text is lost by wrapping: every token is drawn by some row unless it is a newline or a space or tab the text breaks at |
| Compositor.LeadingNewlineState | src/lib/cnc_terminal.c:1732-1754 | as written, the turn over a leading newline stores row 0..0 and starts the next row at 2, past the counter |
| Compositor.TurnAfterLeadingNewline | src/lib/cnc_terminal.c:1725-1820 | as written, the turn at counter 1 after a leading newline keeps the pass's invariant, the row still starts at 2, and no stored row shows token 1 |
| Compositor.WrapStepRowsFrom | src/lib/cnc_terminal.c:1725-1820 | one turn keeps every stored row and adds at most rows that start no earlier than the current row |
| Compositor.WrappedRowsFrom | src/lib/cnc_terminal.c:1725-1820 | the rest of the loop keeps every stored row and only adds rows that start no earlier than the current row |
| Compositor.LeadingNewlineLosesToken | src/lib/cnc_terminal.c:1691-1820 | the pass as written loses no text on tokens that do not start with a newline, and after a leading newline no row draws token 1 |
| Compositor.WrapRowsAsWritten | src/lib/cnc_terminal.c:1725-1820 | the calculation phase as written, with NewlineCloseAsWritten at a leading newline; its properties are LeadingNewlineState, TurnAfterLeadingNewline, WrappedRowsFrom and LeadingNewlineLosesToken |
| Compositor.FittingRowDraws | src/lib/cnc_terminal.c:1842-1843 | on honest tokens a row that fits by the pass's measure also fits as drawn |
| Compositor.WrapRowsDrawable | src/lib/cnc_terminal.c:1822-1851 | every row of the pass can be drawn: the padding _ct_render_data computes never goes below zero |
| Compositor.RowTextIsRenderData | src/lib/cnc_terminal.c:1842-1843 | the text of a row is _ct_render_data from its first to its last token |
| Compositor.RenderRows | src/lib/cnc_terminal.c:1822-1859 | the rendering phase writes Frame: the stored rows from the view's first on, then blank rows |
| Compositor.RenderTextRows | src/lib/cnc_terminal.c:1823-1851 | the first rendering loop stops at the frame's height or past the last stored row, having written those rows |
| Compositor.RenderBlankRows | src/lib/cnc_terminal.c:1853-1859 | the second rendering loop writes `count` blank rows, one after another, and nothing else |
| Compositor.FrameRowsBlanks | src/lib/cnc_terminal.c:1853-1859 | once the frame has passed the last stored row, every further frame row is the blank row, so the two rendering loops together write the whole frame |
| Compositor.RowBytesOf | src/lib/cnc_terminal.c:1832-1850 | one row of a display: its colours, its text, the reset and a line break but after the last row |
| Compositor.NewlineLoss | src/lib/cnc_terminal.c:1716-1722 | the pushed newline evicts a token exactly when the tokens do not end in a newline and the buffer is full at its maximum |
| Compositor.WithNewline | src/lib/cnc_terminal.c:1716-1722 | the tokens the pass runs over end in a newline: the buffer's own when they already do, else the buffer after cb_push of one |
| Compositor.WithNewlineReady | src/lib/cnc_terminal.c:1716-1722 | pushing the newline keeps the tokens drawable |
| Compositor.WrapRowsCount | src/lib/cnc_terminal.c:1725-1820 | the pass never stores more rows than there are tokens, so rows_info cannot overflow |
| Compositor.UpdateDisplay | src/lib/cnc_terminal.c:1680-1868 | an empty display writes `height` blank rows and a row count of 0; otherwise data_index becomes the number of rows, the frame is drawn from them, and the buffer ends as it began less what the pushed newline evicted; live and maxCapacity are kept, and capacity is kept on an empty display and otherwise becomes NewlineCapacity (grown only when the newline push had to grow a full buffer) |
| Compositor.UpdateRows | src/lib/cnc_terminal.c:1715-1866 | on a display holding tokens, data_index becomes the number of rows the pass builds over the tokens ended by a newline, the frame is drawn from those rows, and the buffer ends as it began less what the pushed newline scrolled out; live and maxCapacity are kept and capacity becomes NewlineCapacity |
| Compositor.DrawFrame | src/lib/cnc_terminal.c:1724-1859 | over tokens ending in a newline, the calculation phase yields the rows of the wrap pass, no more rows than tokens, and the rendering phase the frame drawn from them |
| Compositor.NewlineRemoved | src/lib/cnc_terminal.c:1715-1866 | removing the newline the update pushed leaves the tokens as they were, less those the push scrolled out |
| Compositor.NewlineCapacity | src/lib/cnc_buffer.c:424-452 | the capacity after ct_update's newline push lies between the old capacity and the maximum, and exceeds the old one exactly when the tokens do not end in a newline and a full buffer below its maximum had to grow |
| Compositor.PushNewline | src/lib/cnc_terminal.c:1716-1722 | a newline is pushed exactly when the tokens do not end in one, leaving WithNewline; live is kept and capacity becomes NewlineCapacity |
| Compositor.DropNewline | src/lib/cnc_terminal.c:1863-1866 | the pushed newline is removed again, and only it; live, capacity and maxCapacity are kept |
| CharBuffer.Zeros | cnc_library.c:267-278 | `n` bytes, every one of them NUL |
| CharBuffer.CLen | cnc_library.c:182-197 | calen counts the bytes before the first NUL, all of them being non-NUL, and stops at a NUL when it does not run to the end |
| CharBuffer.CalenOf | cnc_library.c:182-197 | the loop of calen computes CLen |
| CharBuffer.TextSet | cnc_library.c:253-279 | set_text leaves size + 1 bytes |
| CharBuffer.ReplacedIn | cnc_library.c:281-295 | replace keeps the number of bytes |
| CharBuffer.ReplaceCount | cnc_library.c:297-340 | replace_text copies nothing when `start` is past the text or `text_start` past the source, and otherwise at most `len` bytes, none at or past `size` and none past the source's end |
| CharBuffer.CharsReplaced | cnc_library.c:342-363 | replace_char keeps the number of bytes |
| CharBuffer.InsertedBytes | cnc_library.c:365-407 | inserting keeps the number of bytes of the array (with lines 419-454) |
| CharBuffer.InsertTextCount | cnc_library.c:379-388 | insert_text puts in at most `len` bytes, at most calen(text), and no more than the room left |
| CharBuffer.InsertCharCount | cnc_library.c:432-435 | insert_char puts in at most `len` bytes and no more than the room left |
| CharBuffer.DeletedBytes | cnc_library.c:456-476 | delete_char keeps the number of bytes of the array |
| CharBuffer.SkipSpaces | cnc_library.c:556-559 | the forward scan of trim stops at the first byte that is not a space, every byte before it being a space |
| CharBuffer.TrimEnd | cnc_library.c:561-573 | the backward scan as intended stops after the last byte that is not a space, never below the first kept byte, every byte after it being a space |
| CharBuffer.SetTextTerminates | cnc_library.c:253-279 | after set_text the text is the start of `text`, cut at `size`, and calen finds exactly its end |
| CharBuffer.CLenAt | cnc_library.c:182-197 | a NUL after `n` non-NUL bytes is where calen stops |
| CharBuffer.ReplaceOnlyOrig | cnc_library.c:281-295 | replace turns every `orig` inside the text into `dest` and changes no other byte, so no `orig` is left in the text when the two differ |
| CharBuffer.ReplaceCharStaysInText | cnc_library.c:342-363 | replace_char writes `c` exactly on text bytes from `start` to `start + len`, and only when `start` is not past the text |
| CharBuffer.ReplaceTextStaysInBuffer | cnc_library.c:297-340 | replace_text never writes at or past `size`, and the bytes it writes are the source's from `text_start` |
| CharBuffer.InsertedText | cnc_library.c:390-404 | inserting puts the bytes into the text at the point and keeps the text NUL-terminated (with lines 437-451) |
| CharBuffer.DeletedText | cnc_library.c:468-473 | deleting drops the byte at `location` from the text, shortens the text by one at `location == length`, and keeps a NUL at the old end |
| CharBuffer.InsertThenDelete | cnc_library.c:419-476 | a byte inserted at a point and then deleted there gives the old text back |
| CharBuffer.TrimmedHasNoOuterSpaces | cnc_library.c:544-587 | trimming leaves no space at either end, and leaves nothing exactly when the text is all spaces |
| CharBuffer.TrimmedIsInner | cnc_library.c:544-587 | what trimming keeps is one run of the text with only spaces before and after it |
| CharBuffer.TrimIdempotent | cnc_library.c:544-587 | trimming twice is trimming once |
| CharBuffer.TrimScanAsWritten | cnc_library.c:561-573 | the backward scan as written stops at or below where it starts, on a byte that is not a space whenever it stays in the array |
| CharBuffer.TrimScanRunsOffAsWritten | cnc_library.c:561-573 | on an empty buffer the scan starts at index -1, and on a buffer of spaces it walks down to -1: both read outside the array |
| CharBuffer.TrimEndAgrees | cnc_library.c:561-573 | on a text with a byte that is not a space, the scan as written and the intended TrimEnd find the same end |
| CharBuffer.TrimEndAgreesFrom | cnc_library.c:561-573 | the same agreement, from any first kept byte |
| CharBuffer.Buffer.constructor | cnc_library.c:199-225 | cnc_buffer_init: `size + 1` NUL bytes and an empty text |
| CharBuffer.Buffer.Resize | cnc_library.c:227-251 | cnc_buffer_resize: fresh storage of `size + 1` NUL bytes, the text lost |
| CharBuffer.Buffer.SetText | cnc_library.c:253-279 | the length becomes min(calen(text), size) and the bytes TextSet |
| CharBuffer.Buffer.Replace | cnc_library.c:281-295 | the bytes become ReplacedIn over the text |
| CharBuffer.Buffer.ReplaceText | cnc_library.c:297-340 | the source's bytes from `text_start` overwrite the text from `start`, ReplaceCount of them, and the length grows to cover them |
| CharBuffer.Buffer.ReplaceChar | cnc_library.c:342-363 | the bytes become CharsReplaced |
| CharBuffer.Buffer.InsertAt | cnc_library.c:390-404 | the two loops of the inserts open a gap at the point, fill it and end the text with a NUL |
| CharBuffer.Buffer.InsertText | cnc_library.c:365-407 | nothing happens when `start` is not below `size`; otherwise InsertTextCount bytes of `text` go in at min(start, length) and the length grows by that many |
| CharBuffer.Buffer.Append | cnc_library.c:409-417 | insert_text at the end of the text: nothing on a full buffer (bytes and length unchanged), else min(calen(text), size - length) bytes of `text` spliced in at the end as InsertedBytes gives them, the rest of the array as before |
| CharBuffer.Buffer.InsertChar | cnc_library.c:419-454 | nothing when `start` is not below `size`; otherwise InsertCharCount copies of `c` go in at min(start, length) |
| CharBuffer.Buffer.DeleteChar | cnc_library.c:456-476 | refused exactly on an empty text or a location past its end; otherwise the bytes become DeletedBytes and the length drops by one |
| CharBuffer.Buffer.EqualString | cnc_library.c:478-499 | true exactly when the length is where the contents' NUL is and the text is `str` up to its NUL |
| CharBuffer.Buffer.LocateString | cnc_library.c:501-542 | found exactly when the text is non-empty, not shorter than the needle and holds it; the location is then the first match |
| CharBuffer.Buffer.Trim | cnc_library.c:544-587 | the text becomes the contents up to their NUL without leading and trailing spaces, followed by NULs |
| CharBuffer.Buffer.KeepOnly | cnc_library.c:575-579 | the text becomes the kept bytes, through a scratch buffer as trim does it |
| CharBuffer.Buffer.TrimBounds | cnc_library.c:553-573 | the two scans of trim find the run Trimmed keeps |
| CharBuffer.Buffer.Clear | cnc_library.c:589-602 | NULs over the array and an empty text |
| CharBuffer.InsertSteps | cnc_library.c:390-404 | the shift, the copy and the closing NUL of the insert loops together give InsertedBytes |
| CharBuffer.NoRoomNoMatch | cnc_library.c:511-514 | a needle longer than the text has no match |
| CharBuffer.NoMatchPastEnd | cnc_library.c:522-541 | past the last start with room for the needle there is no match |
| CharBuffer.ShiftRight | cnc_library.c:391-395 | the move up by `n` bytes, from the top down, as the insert loops make it |
| CharBuffer.ShiftLeft | cnc_library.c:468-471 | the move down by one byte, as the delete loop makes it |
| CharBuffer.Fill | cnc_library.c:398-401 | the copy of the new bytes into the gap |
| CharBuffer.CopyText | cnc_library.c:318-339 | the copy loop of replace_text stops at `size`, at the source's end or after `len` bytes, and the length grows as the copy passes it |
| CharBuffer.TrimCopy | cnc_library.c:575-579 | the scratch copy trim makes holds all the kept bytes, and set_text of it takes them whole |
| IntFormat.DigitChar | cnc_library.c:1935 | a digit below ten becomes a character from '0' to '9' |
| IntFormat.DigitsOf | cnc_library.c:1929-1949 | the digits of a number are decimal characters, and a positive number's first digit is not '0' |
| IntFormat.Reverse | cnc_library.c:1939-1948 | reversal keeps the length |
| IntFormat.Ungroup | cnc_library.c:1951-1970 | a string with its commas dropped holds no comma |
| IntFormat.FieldWidth | cnc_library.c:1910 | the field width is `width` from 0 to 26 and 0 otherwise, always below the buffer's 27 |
| IntFormat.Padded | cnc_library.c:1983-1998 | padding makes the text exactly the field width when it is shorter, and leaves it alone otherwise |
| IntFormat.PrependMinus | cnc_library.c:1972-1981 | the sign loop moves the text up one place and puts '-' in front |
| IntFormat.PadLeft | cnc_library.c:1983-1998 | the padding loops move the text up to end at the field width and fill the front with spaces |
| IntFormat.Magnitude | cnc_library.c:1912-1922 | the absolute value is the number or its negation |
| IntFormat.ReverseReverse | cnc_library.c:1939-1948 | reversing twice gives the digits back |
| IntFormat.ValueOfDigits | cnc_library.c:1933-1937 | reading the digits of a number back gives the number |
| IntFormat.DigitsOfLength | cnc_library.c:1906 | a number below 10^k has at most k digits |
| IntFormat.Int64Digits | cnc_library.c:1906 | every int64 magnitude has at most 19 digits, so the digits fit the 27-byte buffer |
| IntFormat.UngroupGrouped | cnc_library.c:1951-1970 | dropping the commas of the grouped digits gives the digits back |
| IntFormat.GroupedCommas | cnc_library.c:1951-1970 | every comma of the grouped digits is followed by exactly three digits before the next comma or the end |
| IntFormat.PaddedIsSpacesThenText | cnc_library.c:1983-1998 | the padding is spaces in front, and the text itself is kept at the end |
| IntFormat.UnformatSpaces | cnc_library.c:1983-1998 | leading spaces do not change what a formatted number reads back as |
| IntFormat.MagnitudeReadsBack | cnc_library.c:1929-1970 | the grouped or plain digits of a magnitude start with a digit and read back as that magnitude |
| IntFormat.FormatReadsBack | cnc_library.c:1904-2003 | the intended result reads back as the number, for every int64, separator and width |
| IntFormat.FormatWidth | cnc_library.c:1983-1998 | the intended result is at least as wide as the field and carries no padding beyond it |
| IntFormat.FormatAgrees | cnc_library.c:1904-2003 | as written and as intended agree on every number that is not negative |
| IntFormat.FormatAsWritten | cnc_library.c:1904-2003 | cnc_i_to_cca as written: at least the field width long; it agrees with Format on non-negative numbers (FormatAgrees) and gives "-" for -5 (NegativeLosesDigitsAsWritten) |
| IntFormat.Format | cnc_library.c:1904-2003 | cnc_i_to_cca as intended: at least the field width long, and it reads back as the number (FormatReadsBack, FormatWidth) |
| IntFormat.NegativeLosesDigitsAsWritten | cnc_library.c:1912-1949 | as written, -5 comes out as "-", which does not read back as -5; as intended it is "-5" |
| IntFormat.SeparatedIsGrouped | cnc_library.c:1951-1970 | on a string without '-', the separator loop puts its commas exactly where Grouped puts them |
| IntFormat.SeparatedLastBlock | cnc_library.c:1955-1969 | the last three characters get one comma in front when something comes before them |
| IntFormat.SeparatedShort | cnc_library.c:1955-1969 | at most three characters get no comma |
| IntFormat.SeparatedSplit | cnc_library.c:1955-1969 | in front of a block of three, the loop treats the prefix as if it ended there |
| IntFormat.SeparatedLength | cnc_library.c:1955-1969 | the separator loop adds at most one comma per three characters |
| IntFormat.ShiftUp | cnc_library.c:1961-1964 | the shift loops move the text up by `n` places, from the top down (with lines 1974-1977, 1987-1990) |
| IntFormat.WriteDigits | cnc_library.c:1929-1949 | the digit loop and the swap loop leave the digits of the number, most significant first, at most 19 of them |
| IntFormat.ReverseInPlace | cnc_library.c:1939-1948 | the swap loop reverses the first `n` characters and leaves the rest |
| IntFormat.InsertSeparators | cnc_library.c:1951-1970 | the separator loop leaves the text with its commas, still below the buffer's end |
| IntFormat.SeparatedFits | cnc_library.c:1951-1970 | everything the separator loop writes stays below index 26 |
| IntFormat.CommaInserted | cnc_library.c:1961-1967 | the shift by one and the comma written at j put a comma before the rest |
| IntFormat.SeparatedStep | cnc_library.c:1955-1969 | one pass of the loop at j inserts a comma exactly when j > 0, a multiple of three characters follow and str[j] is not '-' |
| IntFormat.IToCca | cnc_library.c:1904-2003 | cnc_i_to_cca writes FormatAsWritten into the static buffer, ended by a NUL below index 27 |
| IntFormat.SeparatorTurn | cnc_library.c:1956-1967 | one turn of the separator loop at j extends the written text from the tokens after j to those from j, inserting a comma exactly where SeparatedFrom puts one |
| IntFormat.InsertComma | cnc_library.c:1960-1966 | the shift loop and the comma at j leave the text with one comma inserted before position j |
| IntFormat.MinusPrepended | cnc_library.c:1972-1978 | the shift by one and the '-' written at 0 give '-' followed by the text |
| IntFormat.PadAndTerminate | cnc_library.c:1983-2001 | the padding and the NUL leave the text padded to the field width and ended by a NUL below index 27 |
| LegacyTerminal.PaintAt | cnc_library.c:150-178 | the first eight cases of the colour table set a foreground, the other eight a background |
| LegacyTerminal.FindCode | cnc_library.c:150-178 | the first case from `i` on that holds the code, or none |
| LegacyTerminal.CodeToColor | cnc_library.c:150-178 | with somewhere to store it, a foreground code gives 2 and a background code 1, storing that case's colour; anything else gives 0 and stores nothing |
| LegacyTerminal.Init | cnc_library.c:623-680 | cnc_widget_init: origin (1, 1), two rows, one column, both indices 0, no focus, focusable unless an info widget, over a fresh empty buffer of the kind's size |
| LegacyTerminal.Reset | cnc_library.c:682-692 | cnc_widget_reset clears the buffer and puts both indices to 0, changing nothing else |
| LegacyTerminal.ScrollBack | cnc_library.c:722-729 | _vim_mode_k changes only the view's index |
| LegacyTerminal.ScrollForward | cnc_library.c:731-737 | _vim_mode_j changes only the view's index |
| LegacyTerminal.ScrollBackThenForward | cnc_library.c:722-737 | 'k' moves a display back one row while a full view of older rows remains, never past the oldest row, and 'j' undoes it; 'j' moves forward one row until the newest rows; neither touches another kind |
| LegacyTerminal.PageBack | cnc_library.c:879-895 | _page_up changes only the view's index |
| LegacyTerminal.PageForward | cnc_library.c:897-911 | _page_dn changes only the view's index |
| LegacyTerminal.PagesRoundTrip | cnc_library.c:879-911 | page-down never moves back and stops at the newest rows; page-up moves back a full page while one remains, which page-down undoes, and otherwise shows the oldest full page |
| LegacyTerminal.Home | cnc_library.c:836-851 | _vim_mode_0 changes only the cursor and the view |
| LegacyTerminal.End | cnc_library.c:853-869 | _vim_mode_$ changes only the cursor and the view |
| LegacyTerminal.EndsOfData | cnc_library.c:836-869 | on a display '$' shows the newest rows and '0' the oldest full page; on a prompt '0' puts cursor and view at the start and '$' puts the cursor past the last byte, in the last column the view keeps for it |
| LegacyTerminal.CursorRight | cnc_library.c:739-750 | _vim_mode_l changes only the cursor and the view |
| LegacyTerminal.CursorLeft | cnc_library.c:752-763 | _vim_mode_h changes only the cursor and the view |
| LegacyTerminal.CursorStaysInText | cnc_library.c:739-763 | 'l' advances a prompt's cursor exactly when it is before the end, 'h' moves it back exactly when it is past the start, both keep it within the text, and 'h' undoes 'l' |
| LegacyTerminal.AfterType | cnc_library.c:917-925 | the step after _insert_char put a byte in changes only the cursor and the view |
| LegacyTerminal.AfterBackspace | cnc_library.c:935-943 | the step after _delete_char moves the cursor back by one and changes only it and the view |
| LegacyTerminal.CursorStepsKeepCursorVisible | cnc_library.c:739-763 | on a prompt at least seven columns wide, 'l' and 'h' keep the cursor inside the view |
| LegacyTerminal.EndsKeepCursorVisible | cnc_library.c:836-869 | '0' and '$' keep the cursor of a prompt at least seven columns wide inside the view |
| LegacyTerminal.EditsKeepCursorVisible | cnc_library.c:913-946 | typing and backspacing keep the cursor of a prompt at least seven columns wide inside the view |
| LegacyTerminal.TypeThenBackspace | cnc_library.c:913-946 | a byte typed moves the cursor one right, a backspace moves it back, and the view too when typing scrolled it or it was at the start |
| LegacyTerminal.SkipRight | cnc_library.c:782-794 | repeated 'l' over spaces or non-spaces stops at the end or at the first byte of the other kind, every byte passed being of the skipped kind |
| LegacyTerminal.EndOfWordLands | cnc_library.c:765-797 | 'e' goes to the end of the first word that ends after the cursor, skipping no word end; with only spaces ahead it stops on the last byte |
| LegacyTerminal.SkipLeft | cnc_library.c:816-828 | repeated 'h' over spaces or non-spaces stops at the start or at the first byte of the other kind, every byte passed being of the skipped kind |
| LegacyTerminal.StartOfWordLands | cnc_library.c:799-834 | 'b' moves the cursor back, and unless it reaches the start of the text it lands on the start of the nearest word before it, skipping no word start |
| LegacyTerminal.SpaceUnder | cnc_library.c:773 | the byte under the cursor is tested for a space (with lines 779, 786, 793) |
| LegacyTerminal.SkipForward | cnc_library.c:782-794 | each loop of _vim_mode_e computes SkipRight over the buffer |
| LegacyTerminal.SkipBackward | cnc_library.c:816-828 | each loop of _vim_mode_b computes SkipLeft over the buffer |
| LegacyTerminal.WordEnd | cnc_library.c:765-797 | _vim_mode_e on a prompt computes EndOfWord; any other widget is returned unchanged (the corrected behaviour) |
| LegacyTerminal.WordStart | cnc_library.c:799-834 | _vim_mode_b on a prompt computes StartOfWord; any other widget is returned unchanged (the corrected behaviour) |
| LegacyTerminal.WordMotionSpinsAsWritten | cnc_library.c:772-797 | on a display 'l' and 'h' change nothing, so the loops of 'e' and 'b' never end while the cursor is short of the text's end or past 0 (with lines 806-829) |
| LegacyTerminal.DeleteUnderCursor | cnc_library.c:871-877 | _vim_mode_x removes the byte under a prompt's cursor from the text and changes nothing when the cursor is at the end or the widget is not a prompt |
| LegacyTerminal.TypedText | cnc_library.c:913-927 | one byte inserted at a point leaves the text with that byte between its two parts |
| LegacyTerminal.TypeChar | cnc_library.c:913-927 | a byte is typed exactly on a prompt whose cursor is below the size and whose buffer has room: it goes in at the cursor (or at the end of the text) and the cursor moves as AfterType says; otherwise nothing changes |
| LegacyTerminal.Backspace | cnc_library.c:929-946 | on a prompt with the cursor past the start and within the text, the byte before the cursor goes and cursor and view step back; otherwise nothing changes |
| LegacyTerminal.KindsOf | cnc_library.c:1198-1207 | the kinds of the widgets, one per widget |
| LegacyTerminal.HeightsOf | cnc_library.c:1154-1157 | the heights of the widgets, one per widget |
| LegacyTerminal.FocusOf | cnc_library.c:1336-1343 | the has_focus flags of the widgets, one per widget |
| LegacyTerminal.CanFocusOf | cnc_library.c:1345-1353 | the can_focus flags of the widgets, one per widget |
| LegacyTerminal.WithFocus | cnc_library.c:1293-1302 | the widgets with their has_focus flags replaced and nothing else changed |
| LegacyTerminal.FocusAppliedIsOnlyFocus | cnc_library.c:1281-1304 | focus_widget ignores an unfocusable or already focused target, changes has_focus flags only, and leaves the target as the only focused widget |
| LegacyTerminal.FocusedIndexOf | cnc_library.c:1334-1343 | the first loop of focus_next finds the first focused widget, or -1 |
| LegacyTerminal.FocusableStepOf | cnc_library.c:1345-1353 | the second loop of focus_next finds the first step to a focusable widget |
| LegacyTerminal.NextHeight | cnc_library.c:1223-1237 | one widget of the layout loop gets the height the laid-out plan gives it |
| LegacyTerminal.StackStep | cnc_library.c:1221-1240 | one widget starts after the rows before it and ends within the screen |
| LegacyTerminal.ArrangeWidgets | cnc_library.c:1214-1241 | the layout loop stacks the widgets from row 1, each with its laid-out height and the full width |
| LegacyTerminal.StackNext | cnc_library.c:1221-1240 | the placing step puts widget i at the next free row with its height and moves the next free row below it |
| LegacyTerminal.StackedViews | cnc_library.c:1187-1244 | stacked widgets follow each other with no gap or overlap, keep their kinds and focus flags, and take the laid-out heights |
| LegacyTerminal.Terminal.constructor | cnc_library.c:988-1090 | cnc_terminal_init past its I/O: a screen of the size read, no widgets, no focus, both switches on, Command mode |
| LegacyTerminal.Terminal.SetMode | cnc_library.c:1113-1136 | the mode changes only while can_change_mode is set, and nothing else changes |
| LegacyTerminal.Terminal.FocusedWidget | cnc_library.c:1306-1320 | the first widget with has_focus, and none exactly when no widget has it |
| LegacyTerminal.MoveFocus | cnc_library.c:1293-1302 | on a list with at most one focused widget and a target that takes the focus, clearing the first other focused widget and setting the target gives FocusApplied |
| LegacyTerminal.Terminal.FocusWidget | cnc_library.c:1281-1304 | the list becomes FocusApplied of the target, and the focused widget becomes the target exactly when it takes the focus |
| LegacyTerminal.Terminal.FocusNext | cnc_library.c:1322-1355 | nothing changes while focus changes are off or no widget is focusable; otherwise the focus goes to the nearest focusable widget after the focused one |
| LegacyTerminal.Terminal.HeightSum | cnc_library.c:1152-1157 | the loop of add_widget sums the heights of all widgets |
| LegacyTerminal.Terminal.AddWidget | cnc_library.c:1138-1185 | refused exactly when the new widget's two rows no longer fit; otherwise it goes last over a fresh buffer of the given size and takes the focus unless it is an info widget |
| LegacyTerminal.Terminal.CountKinds | cnc_library.c:1194-1207 | the first loop of setup_widgets counts the displays and the info and prompt widgets |
| LegacyTerminal.Terminal.SetupWidgets | cnc_library.c:1187-1244 | setup_widgets succeeds exactly when the layout fits; it then stacks the widgets from row 1 with the laid-out heights over the whole width, and otherwise changes nothing |

## Left out

### Input, output and the environment

- Terminal I/O is not modelled: termios raw mode, signal handlers, ioctl window size, write/printf output, usleep and the redraw that writes the screen buffer to the terminal. This covers src/lib/cnc_terminal.c:4-154, 219-237, 407-448, 516-539, 575-609, 970-1008, 1129-1148, 1225-1240 and 1289-1415 (except the state that initialisation sets), and cnc_library.c:1-147, 958-1111, 1357-1391 and 1701-1768. Input bytes and window sizes are parameters instead.
- Terminal.Terminal.constructor and LegacyTerminal.Terminal.constructor take the screen's rows and columns as parameters instead of asking ioctl.
- ctt_c_width (cnc_term_token_width.h) is not part of this model. The display width of a code point is the parameter `cw`.
- The root header cnc_library.h is not part of this model. Its colour codes, buffer sizes and key codes are parameters: `codes` in LegacyTerminal.CodeToColor, `bufferSize` in LegacyTerminal.Init.

### Parts not modelled

- Memory management: allocation failure paths (a NULL from malloc or realloc) and the destroy/free functions. Growth is modelled as always succeeding. The NULL-pointer guards of ctt_equal and ctt_parse_bytes (src/lib/cnc_term_token.c:5-8 and 54-57), which return false for a NULL argument, are left out too, because the model's tokens and byte sequences are values that are never NULL.
- The application layer in src/lib/cnc_library.c and the demo programs: they sit on top of the core and only drive it.
- The root generation's old compositor is left out: cnc_terminal_update, _index_at_cr and screenbuffer_reset (cnc_library.c:948-956, 1246-1279, 1393-1675). Its successor in src/lib is modelled by Compositor.
- The root key dispatch _cnc_terminal_get_user_input (cnc_library.c:1742-1855) is left out, because it switches on key codes from the missing header. Each motion it calls is modelled on its own in LegacyTerminal.
- LegacyTerminal.Widget does not keep the widget's colour strings. They are only copied, never examined.

### Contracts weaker than the source

- TokenBuffer.Buffer.Set: requires the index to be below the capacity. cb_set writes without any check, so an index past the end is undefined behaviour in C.
- Terminal.Terminal.MoveToLineEnd: requires LineEndDefined when a prompt has the focus. That predicate asks for two things. The prompt's buffer must be non-empty, because the '$' motion reads data[size-1]. And PromptPad plus the width of that last token must be at most the widget's width, because otherwise the index loop of `_ct_vm_$` (src/lib/cnc_terminal.c:662-668) never ends.
- Terminal.Terminal.AppendAtLineEnd: requires LineEndDefined, both halves of it (a non-empty prompt buffer, and a last token that fits after the prompt symbol), because it runs the '$' motion first.
- Compositor.UpdateDisplay: requires DisplayReady of the buffer's tokens, which has three parts:
  - Every text token is no wider than the screen. The calculation loop (src/lib/cnc_terminal.c:1757-1788) never advances past a wider token.
  - Honest: a token that is not CHAR or UTF8 takes no columns. cb_data_width counts only CHAR and UTF8 widths, so for any other token with a width the rows the pass measures would not be the rows drawn. Every token ctt_parse_value builds is honest (Compositor.ParsedTokensAreHonest).
  - ColorCodesBlank: the token after a C_COL is not a text token of positive width. ct_update skips that token as a colour code (src/lib/cnc_terminal.c:1798-1816) without measuring it, yet the row still spans it and draws it, so a visible token there can make a row wider than the screen. The library's colour codes are zero-width style tokens (src/lib/cnc_term_token.h:152-167). The model does not cover a display such as [0x05, 'x'], which ct_update draws.
- Compositor.UpdateRows: requires DisplayReady, with the three parts and reasons given under UpdateDisplay.
- Compositor.DrawFrame: requires DisplayReady, with the three parts and reasons given under UpdateDisplay.
- Compositor.UpperBound: requires that the first token fits on the screen when the index is 0. Otherwise the do-while loop (src/lib/cnc_terminal.c:1654-1659) decrements u_bound past zero.
- Compositor.RenderOneLine: requires OneLineReady, which has five parts:
  - An info widget with no colours of its own needs a focused widget, because ct_update reads `ct->focused_widget->type` (src/lib/cnc_terminal.c:1611), which is NULL until a widget takes the focus.
  - A prompt needs more than PromptPad columns, because `line_width -= (PROMPT_PAD + 1)` (src/lib/cnc_terminal.c:1638) would wrap in size_t.
  - The view index is at most the size. The model does not cover a view index past the data. The C draws that as a blank row: cb_data_width returns 0 for a start at or past the size (src/lib/cnc_buffer.c:122), so the do-while stops at once, and `_ct_render_data` (src/lib/cnc_terminal.c:479-499) draws no token and pads the row with spaces.
  - Honest, for the reason given under UpdateDisplay.
  - FirstFits, the requirement of UpperBound.
- Terminal.Terminal.InsertToken: requires InsertDefined (the index below the capacity) and a size below the maximum capacity, so that the insertion cannot overrun the buffer.
- Terminal.Terminal.Dispatch: for a key that types into the prompt, requires InsertDefined (the cursor index below the capacity) but not the size bound of InsertToken, since ct_get_user_input checks the size against the maximum itself. For a key routed to the command '$' or 'A', it requires LineEndDefined, as MoveToLineEnd does.
- Terminal.Terminal.RunCommand: ensures only that the invariant and the settings hold. The effect of each command is stated on the method that carries it out. For the commands '$' and 'A' it requires LineEndDefined, as MoveToLineEnd does.
- CharBuffer.Buffer.ReplaceChar: start plus length is an unbounded integer. The size_t wrap of that sum is not modelled.
- CharBuffer.Buffer.InsertChar: length plus len is an unbounded integer. The size_t wrap of `b->length + len` (cnc_library.c:433) is not modelled, so a len near 2^64 is taken as too long rather than as a short one.
- Keys.Getch: requires at most 12 bytes waiting when the first one is an escape. _ct_getch (src/lib/cnc_terminal.c:219-288) reads every waiting byte of an escape into its 12-byte `ch` array, so a longer input writes past the array, which C leaves undefined.
- Terminal.Terminal.AddWidget: requires fewer than 255 widgets. ct_add_widget (src/lib/cnc_terminal.c:919-964) also accepts a 256th widget when the screen has rows left for it, and its uint8_t widgets_count then wraps to 0, losing every widget from the count. The helpers Append, AppendFocused and AddInitial carry the same bound.
- TokenBuffer.Buffer.AppendBuffer: requires the source to be the buffer itself or a buffer with its own data array. Two distinct buffer structures sharing one array arise only from copying the structure by value, and are not modelled.
- TokenBuffer.Buffer.SetBuffer: the same requirement as AppendBuffer.
- TokenBuffer.Buffer.Overwrite: when the source shares the destination's data array, requires the two ranges not to overlap. cb_overwrite copies with memcpy (src/lib/cnc_buffer.c:409-410), which is undefined on overlapping ranges.
- TokenBuffer.Buffer.CopyIn: the same requirement as Overwrite.
- TokenBuffer.Buffer.constructor: a maximum capacity of 0 gives a buffer with size 0, capacity 0 and no data (`live` false). cb_init (src/lib/cnc_buffer.c:218-223) returns false before it writes any field, so in C that buffer's size, capacity, max_capacity and data keep whatever the caller's memory held. The model does not capture those indeterminate values.
- Widget.Init: a title's buffer is the refused buffer of TokenBuffer.Buffer.constructor, an empty buffer without data. cw_init (src/lib/cnc_widget.c:18, 72) mallocs the widget and ignores cb_init's refusal, so in C the title's buffer fields are indeterminate. ct_update still runs cb_replace on that buffer (src/lib/cnc_terminal.c:1570-1575), and the application sets and appends its text. All of that is undefined in C. In the model, Compositor.RenderOneLine draws an empty row for a title and the appends leave its buffer unchanged.
- TerminalRules.SkipRight: on a prompt whose buffer is full (size equal to capacity), the loops of `_ct_vm_e` (src/lib/cnc_terminal.c:772-791) read `data[size]` once the cursor reaches the end, one slot past the array. The read's value is never used, because `move_forward` is already false, so the model, which tests the space only below the size, gives the same result. It does not model the out-of-bounds read itself. TerminalRules.SpaceAt is the test it uses.
- LegacyTerminal.StartOfWordLands: says nothing about a result of 0, where the scan stops at the start of the buffer.
- TerminalRules.PageDownShortDisplay: the size_t underflow of page-down on a display shorter than the screen is modelled as the wrap it produces. Nothing beyond that is claimed. After that wrap the rendering phase reads `rows_info[index + k]` (src/lib/cnc_terminal.c:1823-1830) far past the array, and `index + k` itself wraps back to row 0 at k = 2. Compositor.Frame and Compositor.RenderRows index the stored rows with the unbounded sum and treat every index past the last stored row as a blank row, so they do not model that read.

### The display pass uses the corrected newline rule

The wrap pass below runs on Compositor.NewlineClose, the corrected rule of Findings row 3. It differs from the code only for tokens whose first token is a newline. There, the code closes row 0..0 over the newline itself and starts the next row at 2, so no row draws token 1. Compositor.WrapRowsAsWritten is the code's pass, and Compositor.LeadingNewlineLosesToken proves both that loss and that the two passes agree on every other input.

- Compositor.WrapStep: is the corrected turn. At a leading newline it starts the next row at 1, where the code starts it at 2.
- Compositor.Wrapped: runs the corrected turns. With a leading newline it draws token 1, which the code never draws.
- Compositor.WrapStepOf: computes the corrected WrapStep, not the code's turn at a leading newline.
- Compositor.WrapPass: stores the rows of the corrected pass. For a display whose first token is a newline these are not the rows the code stores (those are WrapRowsAsWritten).
- Compositor.WrapStepCovered: proves coverage for the corrected turn only. The code skips token 1 after a leading newline.
- Compositor.WrappedCovered: proves coverage for the corrected pass only, for the same reason.
- Compositor.WrapRowsCover: "no text is lost" holds for the corrected pass. For the code's pass it holds when the first token is not a newline, and when a newline is followed by another token that token is drawn by no row (LeadingNewlineLosesToken).
- Compositor.UpdateRows: data_index and the frame come from the corrected pass, so after a leading newline the model's frame shows token 1 and the code's does not.
- Compositor.DrawFrame: its calculation phase is the corrected pass, with the same difference at a leading newline.
- Compositor.UpdateDisplay: draws the frame of the corrected pass, with the same difference at a leading newline, in addition to requiring DisplayReady.

### Where the header and the code disagree

- cb_set_text is declared at src/lib/cnc_buffer.h:51 but defined as cb_set_txt at src/lib/cnc_buffer.c:567. The model follows the definition.
- main_display_widget is used at src/lib/cnc_terminal.c:333 but is not a field of the terminal struct. The model keeps it as an optional widget index.
- cw_init leaves can_focus of a title widget unset. Widget.Init takes that byte as the parameter `uninitialised`.

## Findings

| source | as written | input that shows it | evidently intended | confidence | as-written member | corrected member |
|---|---|---|---|---|---|---|
| src/lib/cnc_buffer.c:7-25 | a full buffer that cannot grow scrolls by capacity/4 tokens; below capacity 4 that shift is 0, _cb_scroll returns, and cb_push (lines 454-460) still writes slot `size` | max capacity 1, one token held: the push writes slot 1 of a 1-slot array | scroll at least one token, so the push stays in bounds | high, not executed | TokenBuffer.PushOverrunsBelowFour | TokenBuffer.PushKeepsShape |
| src/lib/cnc_buffer.c:91-113 | cb_data_length clamps `count` to the size, not to the size minus `start`, then reads from `start` | two tokens, start 1, count 2: reads index 2 | stop at the end of the data | high, not executed | TokenBuffer.DataLengthOverreadExample | TokenBuffer.Buffer.DataLength |
| src/lib/cnc_terminal.c:1732-1754 | a newline closes its row at counter-1 (or 0 when the counter is 0), and the next row starts 2 past that end | a widget whose first token is a newline: token 1 lands in no row | the next row starts right after the newline | medium, not executed | Compositor.LeadingNewlineLosesToken | Compositor.WrapRowsCover |
| cnc_library.c:561-573 | the trim scan walks down from the last char while it is a space, with no lower bound | an empty buffer, or the buffer "  ": the scan reaches index -1 | stop at index 0 | high, not executed | CharBuffer.TrimScanRunsOffAsWritten | CharBuffer.TrimEndAgrees |
| cnc_library.c:1912-1949 | the digit loop sits in the branch for positive numbers, so a negative number gets its sign and no digits | -5 formats as "-" | the sign followed by the digits of the magnitude (for INT64_MIN the code's own branch substitutes INT64_MAX, so it evidently meant -9223372036854775807; the corrected member prints the true magnitude, ...808, at that one value) | high, not executed | IntFormat.NegativeLosesDigitsAsWritten | IntFormat.FormatReadsBack |
| cnc_library.c:765-834 | the 'e' and 'b' loops step with 'l'/'h' while the cursor can still move, but those steps leave a display widget unchanged | 'e' pressed with a display widget focused: the loop never ends | stop when the cursor cannot move | medium, not executed | LegacyTerminal.WordMotionSpinsAsWritten | LegacyTerminal.WordEnd |
