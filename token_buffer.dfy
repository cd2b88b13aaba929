/**
 * The token buffer (src/lib/cnc_buffer.c): a growable array of terminal
 * tokens with a size, a capacity and a maximum capacity. When it is full
 * and cannot grow, pushing drops the oldest tokens ("scrolls").
 *
 * The buffer's abstract state is a `Shape` (its tokens, capacity and
 * maximum capacity). Each state-changing operation is specified by a pure
 * function on shapes; the properties of the operations are lemmas about
 * those functions.
 */
module TokenBuffer {
  import opened Basics
  import opened TermToken

  /** CB_SCROLL_FACTOR: a full buffer drops a quarter of its capacity. */
  const ScrollFactor: nat := 4
  /** CB_INIT_CAP */
  const InitialCapacity: nat := 256

  datatype Shape = Shape(tokens: seq<Token>, capacity: nat, maxCapacity: nat)

  /** The shape of an allocated buffer. */
  predicate ShapeOk(sh: Shape)
  {
    |sh.tokens| <= sh.capacity <= sh.maxCapacity && 0 < sh.capacity
  }

  /** CHAR and UTF8 tokens occupy columns and bytes of text; the others do not. */
  predicate IsText(t: Token)
  {
    t.kind == Char || t.kind == Utf8
  }

  // ---------------------------------------------------------------------
  // Capacity and scrolling
  // ---------------------------------------------------------------------

  /** The capacity a full buffer grows to: double, capped at the maximum. */
  function Grown(capacity: nat, maxCapacity: nat): nat
  {
    Min(2 * capacity, maxCapacity)
  }

  /** _cb_scroll as written: how many tokens it drops from a buffer of this capacity and size. */
  function ScrollShiftAsWritten(capacity: nat, size: nat): (r: nat)
    ensures r <= capacity / ScrollFactor && (r == 0 || r < size)
    ensures capacity < ScrollFactor ==> r == 0
  {
    var shift := capacity / ScrollFactor;
    if size == 0 || shift == 0 || shift >= size then 0 else shift
  }

  /**
   * cb_push as written, on a buffer that is full and at its maximum
   * capacity: the slot the token is stored in after the scroll.
   */
  function PushSlotAsWritten(capacity: nat): (r: nat)
    ensures capacity - capacity / ScrollFactor <= r <= capacity
    ensures capacity < ScrollFactor ==> r == capacity
  {
    capacity - ScrollShiftAsWritten(capacity, capacity)
  }

  /**
   * For a full buffer at a maximum capacity below four, the scroll drops
   * nothing and cb_push stores the token one past the end of the array.
   */
  lemma PushOverrunsBelowFour(capacity: nat)
    requires 0 < capacity < ScrollFactor
    ensures PushSlotAsWritten(capacity) == capacity
  {
  }

  /** A buffer with maximum capacity 1 that already holds a token: the next push writes slot 1 of a 1-slot array. */
  lemma PushOverrunExample()
    ensures PushSlotAsWritten(1) == 1
    ensures ScrollShiftAsWritten(1, 1) == 0
  {
  }

  /** How many tokens a full buffer at maximum capacity drops: a quarter of its capacity, and at least one. */
  function Evicted(capacity: nat): (r: nat)
    requires capacity > 0
    ensures 1 <= r <= capacity
    ensures capacity >= ScrollFactor ==> r == ScrollShiftAsWritten(capacity, capacity)
  {
    if capacity / ScrollFactor == 0 then 1 else capacity / ScrollFactor
  }

  /** cb_push: append `t`, growing or scrolling a full buffer first. */
  function Pushed(sh: Shape, t: Token): Shape
    requires ShapeOk(sh)
  {
    if |sh.tokens| < sh.capacity then
      sh.(tokens := sh.tokens + [t])
    else if sh.capacity < sh.maxCapacity then
      Shape(sh.tokens + [t], Grown(sh.capacity, sh.maxCapacity), sh.maxCapacity)
    else
      sh.(tokens := sh.tokens[Evicted(sh.capacity)..] + [t])
  }

  /** cb_push of every token of `ts` in turn (cb_append_buf). */
  function PushAll(sh: Shape, ts: seq<Token>): (r: Shape)
    requires ShapeOk(sh)
    ensures ShapeOk(r) && r.maxCapacity == sh.maxCapacity
    decreases |ts|
  {
    PushKeepsShape(sh, if ts == [] then ZeroToken else ts[0]);
    if ts == [] then sh else PushAll(Pushed(sh, ts[0]), ts[1..])
  }

  /**
   * cb_append_buf with the buffer as its own source, from index `i`: the
   * loop pushes the token at `i` and reads the size again, which the push
   * has moved, until the index reaches it.
   */
  function AppendSelf(sh: Shape, i: nat): (r: Shape)
    requires ShapeOk(sh)
    ensures ShapeOk(r) && r.maxCapacity == sh.maxCapacity && r.capacity >= sh.capacity
    decreases sh.maxCapacity - i
  {
    if i >= |sh.tokens| then sh
    else
      PushKeepsShape(sh, sh.tokens[i]);
      AppendSelf(Pushed(sh, sh.tokens[i]), i + 1)
  }

  /**
   * Appending a buffer that holds tokens to itself never stops at one
   * copy: below the maximum every push moves the size along with the
   * index, so the loop only ends once the buffer has grown to its maximum
   * capacity and started dropping its oldest tokens.
   */
  lemma {:induction false} AppendSelfFills(sh: Shape, i: nat)
    requires ShapeOk(sh) && i < |sh.tokens|
    ensures AppendSelf(sh, i).capacity == sh.maxCapacity
    decreases sh.maxCapacity - i
  {
    var next := Pushed(sh, sh.tokens[i]);
    PushKeepsShape(sh, sh.tokens[i]);
    if sh.capacity == sh.maxCapacity {
      assert AppendSelf(sh, i).capacity >= sh.capacity;
    } else {
      assert |next.tokens| == |sh.tokens| + 1;
      AppendSelfFills(next, i + 1);
    }
  }

  /**
   * Pushing keeps the shape well formed and ends the buffer with `t`; the
   * tokens before it are the old ones, minus a quarter of the capacity
   * when the buffer was full at its maximum.
   */
  lemma PushKeepsShape(sh: Shape, t: Token)
    requires ShapeOk(sh)
    ensures ShapeOk(Pushed(sh, t))
    ensures Pushed(sh, t).maxCapacity == sh.maxCapacity && Pushed(sh, t).capacity >= sh.capacity
    ensures var k := if |sh.tokens| == sh.capacity == sh.maxCapacity then Evicted(sh.capacity) else 0;
      Pushed(sh, t).tokens == sh.tokens[k..] + [t]
  {
  }

  /** Pushing into a buffer that is not full at its maximum capacity loses nothing. */
  lemma PushKeepsTokens(sh: Shape, t: Token)
    requires ShapeOk(sh) && |sh.tokens| < sh.maxCapacity
    ensures Pushed(sh, t).tokens == sh.tokens + [t]
    ensures |sh.tokens| == sh.capacity ==> Pushed(sh, t).capacity == Grown(sh.capacity, sh.maxCapacity) > sh.capacity
  {
  }

  /** Pushes lose nothing while the tokens fit in the maximum capacity. */
  lemma {:induction false} PushAllKeepsTokens(sh: Shape, ts: seq<Token>)
    requires ShapeOk(sh) && |sh.tokens| + |ts| <= sh.maxCapacity
    ensures PushAll(sh, ts).tokens == sh.tokens + ts
    decreases |ts|
  {
    if ts != [] {
      PushKeepsTokens(sh, ts[0]);
      PushAllKeepsTokens(Pushed(sh, ts[0]), ts[1..]);
      assert sh.tokens + [ts[0]] + ts[1..] == sh.tokens + ts;
    }
  }

  /**
   * Eleven pushes into an empty buffer of capacity 4 and maximum 10 grow it
   * to 8, then to 10, and the eleventh push drops the two oldest tokens.
   */
  lemma ElevenPushes(ts: seq<Token>)
    requires |ts| == 11
    ensures PushAll(Shape([], 4, 10), ts) == Shape(ts[2..], 10, 10)
  {
    var sh := Shape([], 4, 10);
    PushAllKeepsTokens(sh, ts[..10]);
    var ten := PushAll(sh, ts[..10]);
    assert ten.tokens == ts[..10];
    PushAllCapacity(sh, ts[..10]);
    PushAllSplit(sh, ts[..10], ts[10..]);
    assert ts[..10] + ts[10..] == ts;
    assert PushAll(ten, ts[10..]) == Pushed(ten, ts[10]);
    assert ts[..10][2..] + [ts[10]] == ts[2..];
  }

  /** Ten pushes into capacity 4, maximum 10 end at capacity 10. */
  lemma PushAllCapacity(sh: Shape, ts: seq<Token>)
    requires sh == Shape([], 4, 10) && |ts| == 10
    ensures PushAll(sh, ts).capacity == 10
  {
    var s := sh;
    var i := 0;
    while i < 10
      invariant 0 <= i <= 10
      invariant ShapeOk(s) && s.maxCapacity == 10
      invariant s.tokens == ts[..i]
      invariant s.capacity == (if i <= 4 then 4 else if i <= 8 then 8 else 10)
      invariant PushAll(s, ts[i..]) == PushAll(sh, ts)
    {
      assert ts[i..] == [ts[i]] + ts[i + 1..];
      assert ts[..i] + [ts[i]] == ts[..i + 1];
      s := Pushed(s, ts[i]);
      i := i + 1;
    }
    assert ts[10..] == [];
  }

  /** Pushing two sequences in turn is pushing their concatenation. */
  lemma {:induction false} PushAllSplit(sh: Shape, a: seq<Token>, b: seq<Token>)
    requires ShapeOk(sh)
    ensures PushAll(sh, a + b) == PushAll(PushAll(sh, a), b)
    decreases |a|
  {
    if a != [] {
      assert (a + b)[0] == a[0] && (a + b)[1..] == a[1..] + b;
      PushKeepsShape(sh, a[0]);
      PushAllSplit(Pushed(sh, a[0]), a[1..], b);
    } else {
      assert a + b == b;
    }
  }

  // ---------------------------------------------------------------------
  // Insertion and removal
  // ---------------------------------------------------------------------

  /** cb_insert: put `t` at `index`, growing a full buffer or dropping its oldest token. */
  function Inserted(sh: Shape, t: Token, index: nat): Shape
    requires ShapeOk(sh) && index <= |sh.tokens|
  {
    if |sh.tokens| < sh.capacity then
      sh.(tokens := sh.tokens[..index] + [t] + sh.tokens[index..])
    else if sh.capacity < sh.maxCapacity then
      Shape(sh.tokens[..index] + [t] + sh.tokens[index..], Grown(sh.capacity, sh.maxCapacity), sh.maxCapacity)
    else
      var s := sh.tokens[1..];
      var j := if index > 0 then index - 1 else 0;
      sh.(tokens := s[..j] + [t] + s[j..])
  }

  /** cb_remove */
  function Removed(s: seq<Token>, index: nat): seq<Token>
    requires index < |s|
  {
    s[..index] + s[index + 1..]
  }

  /**
   * Inserting keeps the shape well formed; below the maximum the token
   * lands at `index` with every other token kept in order, and removing
   * it there gives the old tokens back.
   */
  lemma InsertThenRemove(sh: Shape, t: Token, index: nat)
    requires ShapeOk(sh) && index <= |sh.tokens|
    ensures ShapeOk(Inserted(sh, t, index))
    ensures |sh.tokens| < sh.maxCapacity ==>
      var r := Inserted(sh, t, index).tokens;
      |r| == |sh.tokens| + 1 && r[index] == t && Removed(r, index) == sh.tokens
  {
    if |sh.tokens| < sh.maxCapacity {
      var r := Inserted(sh, t, index).tokens;
      assert r == sh.tokens[..index] + [t] + sh.tokens[index..];
      assert r[..index] == sh.tokens[..index];
      assert r[index + 1..] == sh.tokens[index..];
      assert sh.tokens[..index] + sh.tokens[index..] == sh.tokens;
    }
  }

  /** A full buffer at its maximum drops its oldest token to make room, and keeps its size. */
  lemma InsertWhenFull(sh: Shape, t: Token, index: nat)
    requires ShapeOk(sh) && index <= |sh.tokens| && |sh.tokens| == sh.capacity == sh.maxCapacity
    ensures var r := Inserted(sh, t, index).tokens;
      var j := if index > 0 then index - 1 else 0;
      |r| == |sh.tokens| && r[j] == t && Removed(r, j) == sh.tokens[1..]
  {
    var s := sh.tokens[1..];
    var j := if index > 0 then index - 1 else 0;
    var r := Inserted(sh, t, index).tokens;
    assert r == s[..j] + [t] + s[j..];
    assert r[..j] == s[..j] && r[j + 1..] == s[j..];
    assert s[..j] + s[j..] == s;
  }

  // ---------------------------------------------------------------------
  // Widths, lengths and text
  // ---------------------------------------------------------------------

  /** Columns taken by a token sequence: the widths of its CHAR and UTF8 tokens (cb_data_width). */
  function WidthSum(ts: seq<Token>): nat
  {
    if ts == [] then 0
    else WidthSum(ts[..|ts| - 1]) + (if IsText(ts[|ts| - 1]) then ts[|ts| - 1].width else 0)
  }

  /** Bytes taken by a token sequence (cb_data_length). */
  function LengthSum(ts: seq<Token>): nat
  {
    if ts == [] then 0 else LengthSum(ts[..|ts| - 1]) + ts[|ts| - 1].length
  }

  /**
   * The token count cb_data_width uses from `start`: `count`, but never
   * past the end of the buffer.
   */
  function Clamped(size: nat, start: nat, count: nat): (r: nat)
    requires start < size
    ensures start + r <= size
    ensures r == count || start + r == size
    ensures count <= size - start ==> r == count
  {
    Min(count, size - start)
  }

  /**
   * One past the last index cb_data_length reads: it clamps `count` to
   * the whole size rather than to the tokens after `start`.
   */
  function DataLengthReadEnd(size: nat, start: nat, count: nat): nat
  {
    start + (if count > size then size else count)
  }

  /** From any start after the first, a count reaching the end makes cb_data_length read past the buffer. */
  lemma DataLengthOverreads(size: nat, start: nat, count: nat)
    requires 0 < start < size && count > size - start
    ensures DataLengthReadEnd(size, start, count) > size
  {
  }

  /** A two-token buffer read from index 1 for two tokens: the read reaches index 2. */
  lemma DataLengthOverreadExample()
    ensures DataLengthReadEnd(2, 1, 2) == 3
    ensures Clamped(2, 1, 2) == 1
  {
  }

  /** The text bytes of a token sequence, as cb_set_c_str copies them. */
  function TextBytes(ts: seq<Token>): seq<Byte>
  {
    if ts == [] then []
    else TextBytes(ts[..|ts| - 1]) + (if IsText(ts[|ts| - 1]) then Payload(ts[|ts| - 1]) else [])
  }

  lemma {:induction false} WidthSumAppend(a: seq<Token>, b: seq<Token>)
    ensures WidthSum(a + b) == WidthSum(a) + WidthSum(b)
    decreases |b|
  {
    if b == [] {
      assert a + b == a;
    } else {
      var b' := b[..|b| - 1];
      assert (a + b)[..|a + b| - 1] == a + b';
      WidthSumAppend(a, b');
    }
  }

  /** Each token takes at most two columns, so a longer slice is never narrower. */
  lemma {:induction false} WidthSumBounds(ts: seq<Token>, i: nat, j: nat)
    requires i <= j <= |ts|
    ensures WidthSum(ts[..i]) <= WidthSum(ts[..j]) <= WidthSum(ts[..i]) + 2 * (j - i)
    decreases j - i
  {
    if i < j {
      WidthSumBounds(ts, i, j - 1);
      assert ts[..j][..j - 1] == ts[..j - 1];
    }
  }

  lemma {:induction false} TextBytesAppend(a: seq<Token>, b: seq<Token>)
    ensures TextBytes(a + b) == TextBytes(a) + TextBytes(b)
    decreases |b|
  {
    if b == [] {
      assert a + b == a;
    } else {
      var b' := b[..|b| - 1];
      assert (a + b)[..|a + b| - 1] == a + b';
      TextBytesAppend(a, b');
    }
  }

  /**
   * The tokens of a NUL-terminated text, parsed one after the other as
   * cb_append_txt does; `None` when a byte sequence does not decode.
   */
  function ParseText(text: seq<Byte>, cw: Value -> Width): (r: Option<seq<Token>>)
    ensures r.Some? ==> |r.value| <= |text|
    ensures r.Some? && ByteAt(text, 0) != 0 ==> |r.value| >= 1
    decreases |text|
  {
    if ByteAt(text, 0) == 0 then Some([])
    else match ParseBytes(text, cw)
      case None => None
      case Some(t) =>
        ParseBytesLength(text, cw);
        match ParseText(text[t.length..], cw)
        case None => None
        case Some(rest) => Some([t] + rest)
  }

  /** A token decoded from a string that does not start with NUL lies inside the string. */
  lemma ParseBytesLength(text: seq<Byte>, cw: Value -> Width)
    requires ByteAt(text, 0) != 0 && ParseBytes(text, cw).Some?
    ensures 1 <= ParseBytes(text, cw).value.length <= |text|
  {
  }

  /**
   * cb_append_txt: pushes the tokens of `text` one by one and stops with
   * false at the first byte sequence that does not decode, keeping what
   * it pushed before.
   */
  function AppendedText(sh: Shape, text: seq<Byte>, cw: Value -> Width): (r: (bool, Shape))
    requires ShapeOk(sh)
    ensures ShapeOk(r.1)
    decreases |text|
  {
    if ByteAt(text, 0) == 0 then (true, sh)
    else match ParseBytes(text, cw)
      case None => (false, sh)
      case Some(t) =>
        ParseBytesLength(text, cw);
        PushKeepsShape(sh, t);
        AppendedText(Pushed(sh, t), text[t.length..], cw)
  }

  /** Appending text is pushing the text's tokens, and it fails exactly when the text does not parse. */
  lemma {:induction false} AppendTextIsPushAll(sh: Shape, text: seq<Byte>, cw: Value -> Width)
    requires ShapeOk(sh)
    ensures AppendedText(sh, text, cw).0 <==> ParseText(text, cw).Some?
    ensures ParseText(text, cw).Some? ==> AppendedText(sh, text, cw).1 == PushAll(sh, ParseText(text, cw).value)
    decreases |text|
  {
    if ByteAt(text, 0) != 0 {
      match ParseBytes(text, cw)
      case None =>
      case Some(t) =>
        ParseBytesLength(text, cw);
        PushKeepsShape(sh, t);
        AppendTextIsPushAll(Pushed(sh, t), text[t.length..], cw);
        if ParseText(text, cw).Some? {
          var ts := ParseText(text, cw).value;
          assert ts[0] == t && ts[1..] == ParseText(text[t.length..], cw).value;
        }
    }
  }

  /** The string length (strlen) of a NUL-terminated text. */
  function CStrLen(text: seq<Byte>): (n: nat)
    ensures n <= |text|
    ensures forall i :: 0 <= i < n ==> text[i] != 0
    ensures n < |text| ==> text[n] == 0
  {
    if text == [] || text[0] == 0 then 0 else 1 + CStrLen(text[1..])
  }

  /** Every token of a text takes at least one byte, so a text has at most strlen tokens. */
  lemma {:induction false} ParseTextCount(text: seq<Byte>, cw: Value -> Width)
    requires ParseText(text, cw).Some?
    ensures |ParseText(text, cw).value| <= CStrLen(text)
    decreases |text|
  {
    if ByteAt(text, 0) != 0 {
      var t := ParseBytes(text, cw).value;
      ParseBytesLength(text, cw);
      ParseBytesShape(text, cw);
      ParseTextCount(text[t.length..], cw);
      CStrLenSkip(text, t.length);
    }
  }

  /** Skipping `k` non-NUL bytes shortens the string by `k`. */
  lemma {:induction false} CStrLenSkip(text: seq<Byte>, k: nat)
    requires k <= |text| && forall i :: 0 <= i < k ==> text[i] != 0
    ensures CStrLen(text[k..]) + k == CStrLen(text)
    decreases k
  {
    if k > 0 {
      assert text[1..][k - 1..] == text[k..];
      CStrLenSkip(text[1..], k - 1);
    }
  }

  /** `needle` occurs in `hay` at `i`, token by token under ctt_equal. */
  predicate MatchAt(hay: seq<Token>, needle: seq<Token>, i: nat)
  {
    i + |needle| <= |hay| && forall j :: 0 <= j < |needle| ==> Equal(hay[i + j], needle[j])
  }

  /** cb_equal on contents: same length and ctt_equal token by token. */
  predicate SameTokens(a: seq<Token>, b: seq<Token>)
  {
    |a| == |b| && forall i :: 0 <= i < |a| ==> Equal(a[i], b[i])
  }

  /** On clean tokens, cb_equal is plain equality of the contents. */
  lemma SameTokensIffEqual(a: seq<Token>, b: seq<Token>)
    requires forall i :: 0 <= i < |a| ==> Clean(a[i])
    requires forall i :: 0 <= i < |b| ==> Clean(b[i])
    ensures SameTokens(a, b) <==> a == b
  {
    if SameTokens(a, b) {
      forall i | 0 <= i < |a|
        ensures a[i] == b[i]
      {
        EqualIffSame(a[i], b[i]);
      }
    }
  }

  // ---------------------------------------------------------------------
  // The buffer object
  // ---------------------------------------------------------------------

  /** Overwriting `n` places from `d` with `src[s..s + n]` splices it into the first `m` elements, and leaves the rest. */
  /** The n places from d and the n places from s do not overlap, as memcpy demands of one buffer. */
  predicate Apart(d: nat, s: nat, n: nat)
  {
    d + n <= s || s + n <= d
  }

  lemma Spliced<T>(before: seq<T>, after: seq<T>, src: seq<T>, sm: nat, d: nat, s: nat, n: nat, m: nat)
    requires |after| == |before| && d + n <= m <= |before| && s + n <= sm <= |src|
    requires forall k :: 0 <= k < |before| && !(d <= k < d + n) ==> after[k] == before[k]
    requires forall k :: d <= k < d + n ==> after[k] == src[s + k - d]
    ensures after[..m] == before[..m][..d] + src[..sm][s..s + n] + before[..m][d + n..]
    ensures after[m..] == before[m..]
  {
    assert forall k :: 0 <= k < m ==> after[k] == (before[..m][..d] + src[..sm][s..s + n] + before[..m][d + n..])[k];
  }

  class Buffer {
    var data: array<Token>
    var size: nat
    var capacity: nat
    var maxCapacity: nat
    /** `data != NULL`: false after cb_init refused a maximum capacity of 0. */
    var live: bool

    ghost predicate Valid()
      reads this
    {
      data.Length == capacity && size <= capacity <= maxCapacity
      && (live <==> capacity > 0)
    }

    /** The tokens held, in order. */
    function Contents(): seq<Token>
      reads this, data
      requires Valid()
    {
      data[..size]
    }

    function State(): Shape
      reads this, data
      requires Valid()
    {
      Shape(data[..size], capacity, maxCapacity)
    }

    /**
     * cb_init: an empty buffer of capacity min(maxCapacity, 256). A
     * maximum capacity of 0 is refused and leaves the buffer unallocated.
     */
    constructor (maxCapacity: nat)
      ensures Valid() && fresh(data)
      ensures live <==> maxCapacity > 0
      ensures live ==> State() == Shape([], Min(maxCapacity, InitialCapacity), maxCapacity)
      ensures !live ==> size == 0
    {
      if maxCapacity == 0 {
        data := new Token[0];
        size, capacity, this.maxCapacity, live := 0, 0, 0, false;
      } else {
        var c := Min(maxCapacity, InitialCapacity);
        data := new Token[c](_ => ZeroToken);
        size, capacity, this.maxCapacity, live := 0, c, maxCapacity, true;
      }
    }

    /** realloc to `newCapacity`: the old slots are kept, the new ones hold zero tokens. */
    method Reallocate(newCapacity: nat)
      requires Valid() && live && capacity <= newCapacity <= maxCapacity
      modifies this
      ensures Valid() && live && fresh(data)
      ensures capacity == newCapacity && size == old(size) && maxCapacity == old(maxCapacity)
      ensures data[..old(capacity)] == old(data[..])
    {
      var a := new Token[newCapacity](_ => ZeroToken);
      var i := 0;
      while i < capacity
        invariant 0 <= i <= capacity
        invariant unchanged(this)
        invariant a[..i] == data[..i]
      {
        a[i] := data[i];
        i := i + 1;
      }
      data, capacity := a, newCapacity;
    }

    /** Drops the first `shift` tokens (the memmove of _cb_scroll and cb_insert). */
    method ShiftDown(shift: nat)
      requires Valid() && 0 < shift <= size
      modifies data
      ensures data[..size - shift] == old(data[shift..size])
      ensures data[size - shift..] == old(data[size - shift..])
    {
      var i := 0;
      while i < size - shift
        invariant 0 <= i <= size - shift
        invariant forall k :: 0 <= k < i ==> data[k] == old(data[shift + k])
        invariant forall k :: i <= k < data.Length ==> data[k] == old(data[k])
      {
        data[i] := data[i + shift];
        i := i + 1;
      }
    }

    /** cb_push. The result is false only on a buffer that was never allocated. */
    method Push(t: Token) returns (ok: bool)
      requires Valid()
      modifies this, data
      ensures Valid() && ok == old(live) && live == old(live)
      ensures ok ==> State() == Pushed(old(State()), t)
      ensures !ok ==> State() == old(State())
      ensures data == old(data) || fresh(data)
    {
      if !live {
        return false;
      }
      ghost var sh := State();
      if size == capacity {
        if capacity < maxCapacity {
          Reallocate(Grown(capacity, maxCapacity));
          assert data[..size] == sh.tokens;
        } else {
          var shift := Evicted(capacity);
          ShiftDown(shift);
          size := size - shift;
          assert data[..size] == sh.tokens[shift..];
        }
      }
      Store(t);
      return true;
    }

    /** The last step of cb_push: `t` goes into the first free slot. */
    method Store(t: Token)
      requires Valid() && live && size < capacity
      modifies this, data
      ensures Valid() && live && data == old(data)
      ensures capacity == old(capacity) && maxCapacity == old(maxCapacity)
      ensures Contents() == old(Contents()) + [t]
    {
      data[size] := t;
      size := size + 1;
      assert data[..size] == old(data[..size]) + [t];
    }

    /**
     * cb_append_buf: pushes every token of `src`. With the buffer as its
     * own source the loop reads the moving size, as AppendSelf says.
     */
    method AppendBuffer(src: Buffer) returns (ok: bool)
      requires Valid() && src.Valid() && (src == this || src.data != data)
      modifies this, data
      ensures Valid() && live == old(live)
      ensures ok == (old(live) && old(src.live))
      ensures ok && src != this ==> State() == PushAll(old(State()), src.Contents())
      ensures ok && src == this ==> State() == AppendSelf(old(State()), 0)
      ensures !ok ==> State() == old(State())
      ensures data == old(data) || fresh(data)
    {
      if !live || !src.live {
        return false;
      }
      if src == this {
        AppendToSelf();
        return true;
      }
      ghost var sh0 := State();
      var i := 0;
      while i < src.size
        invariant 0 <= i <= src.size
        invariant Valid() && live
        invariant data == old(data) || fresh(data)
        invariant src.data[..src.size] == old(src.data[..src.size])
        invariant PushAll(State(), src.Contents()[i..]) == PushAll(sh0, src.Contents())
      {
        assert src.Contents()[i..] == [src.data[i]] + src.Contents()[i + 1..];
        var pushed := Push(src.data[i]);
        i := i + 1;
      }
      return true;
    }

    /** The loop of cb_append_buf(b, b): the index chases the size the pushes move. */
    method AppendToSelf()
      requires Valid() && live
      modifies this, data
      ensures Valid() && live
      ensures State() == AppendSelf(old(State()), 0)
      ensures data == old(data) || fresh(data)
    {
      ghost var sh0 := State();
      var i := 0;
      while i < size
        invariant Valid() && live
        invariant data == old(data) || fresh(data)
        invariant AppendSelf(State(), i) == AppendSelf(sh0, 0)
        decreases maxCapacity - i
      {
        var pushed := Push(data[i]);
        i := i + 1;
      }
    }

    /** cb_append_txt */
    method AppendText(text: seq<Byte>, cw: Value -> Width) returns (ok: bool)
      requires Valid()
      modifies this, data
      ensures Valid() && live == old(live)
      ensures old(live) ==> (ok, State()) == AppendedText(old(State()), text, cw)
      ensures !old(live) ==> ok == (ByteAt(text, 0) == 0) && State() == old(State())
      ensures data == old(data) || fresh(data)
    {
      var rest := text;
      ghost var sh0 := State();
      while ByteAt(rest, 0) != 0
        invariant Valid() && live == old(live)
        invariant data == old(data) || fresh(data)
        invariant !live ==> rest == text && State() == sh0
        invariant live ==> AppendedText(State(), rest, cw) == AppendedText(sh0, text, cw)
        decreases |rest|
      {
        var parsed := ParseBytes(rest, cw);
        if parsed.None? {
          return false;
        }
        var t := parsed.value;
        ParseBytesLength(rest, cw);
        var pushed := Push(t);
        if !pushed {
          return false;
        }
        rest := rest[t.length..];
      }
      return true;
    }

    /** cb_clear: zeroes the used slots and empties the buffer. */
    method Clear()
      requires Valid()
      modifies this, data
      ensures Valid() && size == 0 && data == old(data)
      ensures capacity == old(capacity) && maxCapacity == old(maxCapacity) && live == old(live)
      ensures forall i :: 0 <= i < old(size) ==> data[i] == ZeroToken
      ensures data[old(size)..] == old(data[size..])
    {
      var i := 0;
      while i < size
        invariant 0 <= i <= size
        invariant unchanged(this)
        invariant forall j :: 0 <= j < i ==> data[j] == ZeroToken
        invariant data[size..] == old(data[size..])
      {
        data[i] := ZeroToken;
        i := i + 1;
      }
      size := 0;
    }

    /**
     * cb_data_width: columns taken by the `count` tokens from `start`
     * (clamped to the end of the buffer); 0 from a start past the end.
     */
    method DataWidth(start: nat, count: nat) returns (w: nat)
      requires Valid()
      ensures live && start < size ==>
        w == WidthSum(Contents()[start..start + Clamped(size, start, count)])
      ensures !live || start >= size ==> w == 0
    {
      if !live || start >= size {
        return 0;
      }
      var clamped := Clamped(size, start, count);
      w := 0;
      var i := 0;
      while i < clamped
        invariant 0 <= i <= clamped
        invariant w == WidthSum(data[start..start + i])
      {
        assert data[start..start + i + 1][..i] == data[start..start + i];
        if IsText(data[start + i]) {
          w := w + data[start + i].width;
        }
        i := i + 1;
      }
      assert data[start..start + clamped] == Contents()[start..start + clamped];
    }

    /**
     * cb_data_length: bytes taken by the `count` tokens from `start`.
     * The count is clamped to the tokens after `start`, as cb_data_width
     * does (see DataLengthReadEnd for the clamp as written).
     */
    method DataLength(start: nat, count: nat) returns (n: nat)
      requires Valid()
      ensures live && start < size ==>
        n == LengthSum(Contents()[start..start + Clamped(size, start, count)])
      ensures !live || start >= size ==> n == 0
    {
      if !live || start >= size {
        return 0;
      }
      var clamped := Clamped(size, start, count);
      n := 0;
      var i := 0;
      while i < clamped
        invariant 0 <= i <= clamped
        invariant n == LengthSum(data[start..start + i])
      {
        assert data[start..start + i + 1][..i] == data[start..start + i];
        n := n + data[start + i].length;
        i := i + 1;
      }
      assert data[start..start + clamped] == Contents()[start..start + clamped];
    }

    /** cb_equal: both allocated, same size, ctt_equal token by token. */
    method Equal(other: Buffer) returns (eq: bool)
      requires Valid() && other.Valid()
      ensures eq <==> live && other.live && SameTokens(Contents(), other.Contents())
    {
      if !live || !other.live || size != other.size {
        return false;
      }
      var i := 0;
      while i < size
        invariant 0 <= i <= size
        invariant forall j :: 0 <= j < i ==> TermToken.Equal(data[j], other.data[j])
      {
        if !TermToken.Equal(data[i], other.data[i]) {
          return false;
        }
        i := i + 1;
      }
      return true;
    }

    /** cb_get: the token at `index`, or nothing past the end. */
    function Get(index: nat): (r: Option<Token>)
      reads this, data
      requires Valid()
      ensures r.Some? <==> live && index < size
      ensures r.Some? ==> r.value == Contents()[index]
    {
      if !live || index >= size then None else Some(data[index])
    }

    /** cb_insert */
    method Insert(t: Token, index: nat) returns (ok: bool)
      requires Valid()
      modifies this, data
      ensures Valid() && live == old(live)
      ensures ok == (old(live) && index <= old(size))
      ensures ok ==> State() == Inserted(old(State()), t, index)
      ensures !ok ==> State() == old(State())
      ensures data == old(data) || fresh(data)
    {
      if !live || index > size {
        return false;
      }
      ghost var sh := State();
      var at := MakeRoom(index);
      ghost var before := data[..size];
      assert |sh.tokens| == sh.capacity == sh.maxCapacity ==> old(data[1..size]) == sh.tokens[1..];
      InsertedAfterRoom(sh, t, index, before, at, capacity);
      PlaceAt(at, t);
      size := size + 1;
      return true;
    }

    /**
     * The first half of cb_insert: a full buffer grows, or drops its
     * oldest token and moves the insertion point down with it.
     */
    method MakeRoom(index: nat) returns (at: nat)
      requires Valid() && live && index <= size
      modifies this, data
      ensures Valid() && live && size < capacity && at <= size && maxCapacity == old(maxCapacity)
      ensures data == old(data) || fresh(data)
      ensures old(size) < old(capacity) ==>
        capacity == old(capacity) && data[..size] == old(data[..size]) && at == index
      ensures old(size) == old(capacity) < old(maxCapacity) ==>
        capacity == Grown(old(capacity), maxCapacity) && data[..size] == old(data[..size]) && at == index
      ensures old(size) == old(capacity) == old(maxCapacity) ==>
        capacity == old(capacity) && data[..size] == old(data[1..size])
        && at == (if index > 0 then index - 1 else 0)
    {
      at := index;
      if size >= capacity {
        if capacity < maxCapacity {
          Reallocate(Grown(capacity, maxCapacity));
          assert data[..size] == old(data[..size]);
        } else {
          ShiftDown(1);
          size := size - 1;
          if at > 0 {
            at := at - 1;
          }
        }
      }
    }

    /** Moves the tokens from `at` one slot up and stores `t` in the freed slot. */
    method PlaceAt(at: nat, t: Token)
      requires Valid() && at <= size < capacity
      modifies data
      ensures data[..size + 1] == old(data[..at]) + [t] + old(data[at..size])
    {
      ShiftUp(at);
      ghost var moved := data[..];
      data[at] := t;
      assert data[..at] == moved[..at];
      assert data[at + 1..size + 1] == moved[at + 1..size + 1];
      assert data[..size + 1] == data[..at] + [data[at]] + data[at + 1..size + 1];
    }

    /** Moves the tokens from `at` one slot up (the memmove of cb_insert). */
    method ShiftUp(at: nat)
      requires Valid() && at <= size < capacity
      modifies data
      ensures data[..at] == old(data[..at])
      ensures data[at + 1..size + 1] == old(data[at..size])
      ensures data[size + 1..] == old(data[size + 1..])
    {
      var i := size;
      while i > at
        invariant at <= i <= size
        invariant data[..i] == old(data[..i])
        invariant data[i + 1..size + 1] == old(data[i..size])
        invariant data[size + 1..] == old(data[size + 1..])
      {
        data[i] := data[i - 1];
        i := i - 1;
      }
    }

    /** cb_remove */
    method Remove(index: nat) returns (ok: bool)
      requires Valid()
      modifies this, data
      ensures Valid() && data == old(data) && live == old(live)
      ensures capacity == old(capacity) && maxCapacity == old(maxCapacity)
      ensures ok == (old(live) && index < old(size))
      ensures ok ==> Contents() == Removed(old(Contents()), index)
      ensures !ok ==> Contents() == old(Contents())
    {
      if !live || index >= size {
        return false;
      }
      var i := index;
      while i < size - 1
        invariant index <= i <= size - 1
        invariant unchanged(this)
        invariant data[..index] == old(data[..index])
        invariant data[index..i] == old(data[index + 1..i + 1])
        invariant data[i..] == old(data[i..])
      {
        data[i] := data[i + 1];
        i := i + 1;
      }
      size := size - 1;
      assert data[..size] == old(data[..index]) + old(data[index + 1..size]);
      return true;
    }

    /**
     * cb_locate_buffer: the first position where `search` occurs. An
     * empty buffer contains nothing; an empty search is found at 0.
     */
    method LocateBuffer(search: Buffer) returns (found: bool, location: nat)
      requires Valid() && search.Valid()
      ensures found <==> live && search.live && 0 < size && search.size <= size
                         && (search.size == 0 || exists i :: MatchAt(Contents(), search.Contents(), i))
      ensures found && search.size == 0 ==> location == 0
      ensures found && search.size > 0 ==>
        MatchAt(Contents(), search.Contents(), location)
        && forall i :: 0 <= i < location ==> !MatchAt(Contents(), search.Contents(), i)
    {
      if !live || !search.live || size == 0 || size < search.size {
        return false, 0;
      }
      if search.size == 0 {
        return true, 0;
      }
      var hay, needle := Contents(), search.Contents();
      var i := 0;
      while i <= size - search.size
        invariant 0 <= i <= size - search.size + 1
        invariant forall k :: 0 <= k < i ==> !MatchAt(hay, needle, k)
      {
        var j := 0;
        while j < search.size && TermToken.Equal(data[i + j], search.data[j])
          invariant 0 <= j <= search.size
          invariant forall m :: 0 <= m < j ==> TermToken.Equal(hay[i + m], needle[m])
        {
          j := j + 1;
        }
        if j == search.size {
          assert MatchAt(hay, needle, i);
          return true, i;
        }
        i := i + 1;
      }
      assert forall k: nat :: MatchAt(hay, needle, k) ==> k < i;
      return false, 0;
    }

    /** cb_locate_c_str: locates the tokens of `text`; an empty text is never found. */
    method LocateText(text: seq<Byte>, cw: Value -> Width) returns (found: bool, location: nat)
      requires Valid()
      ensures found <==> CStrLen(text) > 0 && ParseText(text, cw).Some? && live && 0 < size
                         && exists i :: MatchAt(Contents(), ParseText(text, cw).value, i)
      ensures found ==>
        MatchAt(Contents(), ParseText(text, cw).value, location)
        && forall i :: 0 <= i < location ==> !MatchAt(Contents(), ParseText(text, cw).value, i)
    {
      var ok, search := TextBuffer(text, cw);
      if !ok {
        return false, 0;
      }
      ghost var p := ParseText(text, cw).value;
      assert search.Contents() == p && search.live && search.size > 0;
      found, location := LocateBuffer(search);
      assert (exists i :: MatchAt(Contents(), p, i)) ==>
        search.size <= size && exists i :: MatchAt(Contents(), search.Contents(), i) by {
        if exists i :: MatchAt(Contents(), p, i) {
          var i :| MatchAt(Contents(), p, i);
          assert MatchAt(Contents(), search.Contents(), i);
        }
      }
    }

    /** cb_equal_c_str: same tokens as `text`; an empty text is never equal. */
    method EqualText(text: seq<Byte>, cw: Value -> Width) returns (eq: bool)
      requires Valid()
      ensures eq <==> CStrLen(text) > 0 && ParseText(text, cw).Some? && live
                      && SameTokens(Contents(), ParseText(text, cw).value)
    {
      var ok, other := TextBuffer(text, cw);
      if !ok {
        return false;
      }
      eq := Equal(other);
    }

    /**
     * cb_overwrite: copies up to `length` tokens of `src` from `srcStart`
     * over this buffer's tokens from `dstStart`, never past either end;
     * false when nothing can be copied.
     */
    method Overwrite(dstStart: nat, length: nat, src: Buffer, srcStart: nat) returns (ok: bool)
      requires Valid() && src.Valid()
      requires src.data == data && dstStart < size && srcStart < src.size ==>
        Apart(dstStart, srcStart, Min(length, Min(src.size - srcStart, size - dstStart)))
      modifies data
      ensures Valid()
      ensures var n := Min(length, Min(src.size - srcStart, size - dstStart));
        ok == (live && src.live && dstStart < size && srcStart < src.size && n > 0)
      ensures ok ==> var n := Min(length, Min(src.size - srcStart, size - dstStart));
        Contents() == old(Contents()[..dstStart]) + old(src.Contents()[srcStart..srcStart + n])
                      + old(Contents()[dstStart + n..])
      ensures !ok ==> Contents() == old(Contents())
      ensures data[size..] == old(data[size..])
    {
      if !live || !src.live || dstStart >= size || srcStart >= src.size {
        return false;
      }
      var n := Min(length, Min(src.size - srcStart, size - dstStart));
      if n == 0 {
        return false;
      }
      CopyIn(dstStart, n, src, srcStart);
      return true;
    }

    /** The copy loop of cb_overwrite: `n` tokens of `src` from `srcStart` over the tokens from `dstStart`. */
    method CopyIn(dstStart: nat, n: nat, src: Buffer, srcStart: nat)
      requires Valid() && src.Valid() && (src.data == data ==> Apart(dstStart, srcStart, n))
      requires dstStart + n <= size && srcStart + n <= src.size
      modifies data
      ensures Contents() == old(Contents()[..dstStart]) + old(src.Contents()[srcStart..srcStart + n]) + old(Contents()[dstStart + n..])
      ensures data[size..] == old(data[size..])
    {
      ghost var before := data[..];
      ghost var from := src.data[..];
      var i := 0;
      while i < n
        invariant 0 <= i <= n
        invariant forall k :: 0 <= k < data.Length && !(dstStart <= k < dstStart + i) ==> data[k] == before[k]
        invariant forall k :: dstStart <= k < dstStart + i ==> data[k] == from[srcStart + k - dstStart]
        invariant src.data != data ==> src.data[..] == from
      {
        assert src.data[srcStart + i] == from[srcStart + i];
        data[dstStart + i] := src.data[srcStart + i];
        i := i + 1;
      }
      Spliced(before, data[..], from, src.size, dstStart, srcStart, n, size);
    }

    /** cb_replace: every token ctt_equal to `match` becomes `replacement`; true when one did. */
    method Replace(pattern: Token, replacement: Token) returns (replaced: bool)
      requires Valid()
      modifies data
      ensures Valid()
      ensures |Contents()| == |old(Contents())|
      ensures forall i :: 0 <= i < size ==>
        Contents()[i] == if TermToken.Equal(old(Contents())[i], pattern) then replacement else old(Contents())[i]
      ensures replaced <==> live && exists i :: 0 <= i < size && TermToken.Equal(old(Contents())[i], pattern)
      ensures data[size..] == old(data[size..])
    {
      if !live {
        return false;
      }
      replaced := false;
      var i := 0;
      while i < size
        invariant 0 <= i <= size
        invariant forall j :: 0 <= j < i ==>
          data[j] == if TermToken.Equal(old(data[j]), pattern) then replacement else old(data[j])
        invariant data[i..] == old(data[i..])
        invariant replaced <==> exists j :: 0 <= j < i && TermToken.Equal(old(data[j]), pattern)
      {
        if TermToken.Equal(data[i], pattern) {
          data[i] := replacement;
          replaced := true;
        }
        i := i + 1;
      }
    }

    /**
     * cb_resize: a new array of `newCapacity` slots holding the first
     * tokens that fit. Refused for 0 or above the maximum capacity.
     */
    method Resize(newCapacity: nat) returns (ok: bool)
      requires Valid()
      modifies this
      ensures Valid() && live == old(live) && maxCapacity == old(maxCapacity)
      ensures ok == (old(live) && 0 < newCapacity <= maxCapacity)
      ensures ok ==> capacity == newCapacity && Contents() == old(Contents()[..Min(size, newCapacity)])
      ensures !ok ==> State() == old(State())
      ensures data == old(data) || fresh(data)
    {
      if !live || newCapacity == 0 || newCapacity > maxCapacity {
        return false;
      }
      if newCapacity == capacity {
        return true;
      }
      var keep := Min(size, newCapacity);
      var a := new Token[newCapacity](_ => ZeroToken);
      var i := 0;
      while i < keep
        invariant 0 <= i <= keep
        invariant unchanged(this)
        invariant a[..i] == data[..i]
      {
        a[i] := data[i];
        i := i + 1;
      }
      data, capacity, size := a, newCapacity, keep;
      return true;
    }

    /** cb_set: stores `t` in slot `index` without changing the size. */
    method Set(t: Token, index: nat) returns (ok: bool)
      requires Valid() && (live ==> index < capacity)
      modifies data
      ensures Valid() && ok == live
      ensures ok ==> data[..] == old(data[..])[index := t]
      ensures ok ==> Contents() == if index < size then old(Contents())[index := t] else old(Contents())
      ensures !ok ==> data[..] == old(data[..])
    {
      if !live {
        return false;
      }
      data[index] := t;
      return true;
    }

    /** cb_set_buf: clears, then appends `src`; set from itself, the buffer ends up empty. */
    method SetBuffer(src: Buffer) returns (ok: bool)
      requires Valid() && src.Valid() && (src == this || src.data != data)
      modifies this, data
      ensures Valid() && live == old(live)
      ensures ok == (old(live) && old(src.live))
      ensures ok && src != this ==> State() == PushAll(old(State()).(tokens := []), src.Contents())
      ensures ok && src == this ==> State() == old(State()).(tokens := [])
      ensures data == old(data) || fresh(data)
    {
      if !live || !src.live {
        return false;
      }
      Clear();
      ok := AppendBuffer(src);
    }

    /** cb_set_txt: clears, then appends `text`. */
    method SetText(text: seq<Byte>, cw: Value -> Width) returns (ok: bool)
      requires Valid()
      modifies this, data
      ensures Valid() && live == old(live)
      ensures !old(live) ==> !ok
      ensures old(live) ==> (ok, State()) == AppendedText(old(State()).(tokens := []), text, cw)
      ensures data == old(data) || fresh(data)
    {
      if !live {
        return false;
      }
      Clear();
      ok := AppendText(text, cw);
    }

    /**
     * cb_set_c_str: writes the text bytes of the buffer and a NUL into
     * `dst`; false when they do not fit, after writing what fitted.
     */
    method SetCStr(dst: array<Byte>) returns (ok: bool)
      requires Valid()
      modifies dst
      ensures !live ==> !ok && dst[..] == old(dst[..])
      ensures ok <==> live && |TextBytes(Contents())| < dst.Length
      ensures ok ==> dst[..|TextBytes(Contents())| + 1] == TextBytes(Contents()) + [0]
      ensures ok ==> dst[|TextBytes(Contents())| + 1..] == old(dst[|TextBytes(Contents())| + 1..])
      ensures !ok ==> forall k :: 0 <= k < dst.Length ==>
        dst[k] == old(dst[k]) || (k < |TextBytes(Contents())| && dst[k] == TextBytes(Contents())[k])
    {
      if !live {
        return false;
      }
      var fits, n := CopyText(dst);
      if !fits {
        return false;
      }
      if n >= dst.Length {
        PartialWrite(dst[..], old(dst[..]), TextBytes(Contents()), n);
        return false;
      }
      dst[n] := 0;
      assert dst[..n + 1] == dst[..n] + [dst[n]];
      return true;
    }

    /**
     * The token loop of cb_set_c_str: copies the text bytes into `dst`
     * and stops, after writing what fitted, at the first token whose bytes
     * would leave no room for the NUL.
     */
    method CopyText(dst: array<Byte>) returns (fits: bool, n: nat)
      requires Valid() && live
      modifies dst
      ensures fits ==> n == |TextBytes(Contents())| <= dst.Length
      ensures fits ==> dst[..n] == TextBytes(Contents()) && dst[n..] == old(dst[n..])
      ensures !fits ==> |TextBytes(Contents())| >= dst.Length
      ensures !fits ==> forall k :: 0 <= k < dst.Length ==>
        dst[k] == old(dst[k]) || (k < |TextBytes(Contents())| && dst[k] == TextBytes(Contents())[k])
    {
      ghost var all := TextBytes(Contents());
      n := 0;
      var i := 0;
      while i < size
        invariant 0 <= i <= size
        invariant n == |TextBytes(data[..i])| && n <= dst.Length
        invariant dst[..n] == TextBytes(data[..i])
        invariant dst[n..] == old(dst[n..])
      {
        assert data[..i + 1][..i] == data[..i];
        if IsText(data[i]) {
          var len := data[i].length;
          if n + len >= dst.Length {
            assert Contents()[..i] == data[..i];
            OverflowingPrefix(Contents(), i, dst.Length);
            PartialWrite(dst[..], old(dst[..]), all, n);
            return false, n;
          }
          WriteBytes(dst, n, Payload(data[i]));
          assert dst[..n + len] == dst[..n] + dst[n..n + len];
          n := n + len;
        }
        i := i + 1;
      }
      assert data[..size] == Contents();
      return true, n;
    }
  }

  /**
   * The temporary buffer cb_locate_c_str and cb_equal_c_str build: room
   * for as many tokens as `text` has bytes, filled with cb_set_txt.
   */
  method TextBuffer(text: seq<Byte>, cw: Value -> Width) returns (ok: bool, b: Buffer)
    ensures fresh(b) && fresh(b.data) && b.Valid()
    ensures ok <==> CStrLen(text) > 0 && ParseText(text, cw).Some?
    ensures ok ==> b.live && b.Contents() == ParseText(text, cw).value && b.size >= 1
  {
    b := new Buffer(CStrLen(text));
    if !b.live {
      return false, b;
    }
    ghost var sh := Shape([], Min(CStrLen(text), InitialCapacity), CStrLen(text));
    ok := b.SetText(text, cw);
    AppendTextIsPushAll(sh, text, cw);
    if ok {
      TextBufferHoldsTokens(sh, text, cw);
      assert ByteAt(text, 0) != 0;
    }
  }

  /** Copies `bytes` into `dst` from `at` (the byte loop of cb_set_c_str). */
  method WriteBytes(dst: array<Byte>, at: nat, bytes: seq<Byte>)
    requires at + |bytes| <= dst.Length
    modifies dst
    ensures dst[..at] == old(dst[..at])
    ensures dst[at..at + |bytes|] == bytes
    ensures dst[at + |bytes|..] == old(dst[at + |bytes|..])
  {
    var j := 0;
    while j < |bytes|
      invariant 0 <= j <= |bytes|
      invariant dst[..at] == old(dst[..at])
      invariant dst[at..at + j] == bytes[..j]
      invariant dst[at + j..] == old(dst[at + j..])
    {
      dst[at + j] := bytes[j];
      j := j + 1;
    }
  }

  /** Every byte of `d` is either untouched or the byte of `all` at its place. */
  lemma PartialWrite(d: seq<Byte>, od: seq<Byte>, all: seq<Byte>, n: nat)
    requires |d| == |od| && n <= |d| && n <= |all|
    requires d[..n] == all[..n] && d[n..] == od[n..]
    ensures forall k :: 0 <= k < |d| ==> d[k] == od[k] || (k < |all| && d[k] == all[k])
  {
    forall k | 0 <= k < |d|
      ensures d[k] == od[k] || (k < |all| && d[k] == all[k])
    {
      if k < n {
        assert d[k] == d[..n][k];
      } else {
        assert d[k] == d[n..][k - n];
      }
    }
  }

  /**
   * When the text bytes up to token `i` do not fit below `limit`, neither
   * do all of them; what came before token `i` is a prefix of them.
   */
  lemma OverflowingPrefix(ts: seq<Token>, i: nat, limit: nat)
    requires i < |ts| && IsText(ts[i]) && |TextBytes(ts[..i])| + ts[i].length >= limit
    ensures |TextBytes(ts[..i])| <= |TextBytes(ts)| && |TextBytes(ts)| >= limit
    ensures TextBytes(ts[..i]) == TextBytes(ts)[..|TextBytes(ts[..i])|]
  {
    assert ts[..i + 1][..i] == ts[..i];
    TextBytesPrefix(ts, i + 1);
    TextBytesPrefix(ts, i);
  }

  /** Inserting is making room (growing, or dropping the oldest token) and then inserting at the adjusted position. */
  lemma InsertedAfterRoom(sh: Shape, t: Token, index: nat, before: seq<Token>, at: nat, capacity: nat)
    requires ShapeOk(sh) && index <= |sh.tokens| && at <= |before|
    requires |sh.tokens| < sh.capacity ==> capacity == sh.capacity && before == sh.tokens && at == index
    requires |sh.tokens| == sh.capacity < sh.maxCapacity ==>
      capacity == Grown(sh.capacity, sh.maxCapacity) && before == sh.tokens && at == index
    requires |sh.tokens| == sh.capacity == sh.maxCapacity ==>
      capacity == sh.capacity && before == sh.tokens[1..] && at == (if index > 0 then index - 1 else 0)
    ensures Inserted(sh, t, index) == Shape(before[..at] + [t] + before[at..], capacity, sh.maxCapacity)
  {
  }

  /** Text bytes of a prefix of the text bytes. */
  lemma {:induction false} TextBytesPrefix(ts: seq<Token>, i: nat)
    requires i <= |ts|
    ensures |TextBytes(ts[..i])| <= |TextBytes(ts)|
    ensures TextBytes(ts[..i]) == TextBytes(ts)[..|TextBytes(ts[..i])|]
    decreases |ts| - i
  {
    if i < |ts| {
      TextBytesPrefix(ts, i + 1);
      assert ts[..i + 1][..i] == ts[..i];
    } else {
      assert ts[..i] == ts;
    }
  }

  /**
   * A buffer set from a text whose maximum capacity is the text's length
   * holds exactly the text's tokens: nothing is scrolled away.
   */
  lemma TextBufferHoldsTokens(sh: Shape, text: seq<Byte>, cw: Value -> Width)
    requires sh == Shape([], Min(CStrLen(text), InitialCapacity), CStrLen(text)) && CStrLen(text) > 0
    requires AppendedText(sh, text, cw).0
    ensures ParseText(text, cw).Some?
    ensures AppendedText(sh, text, cw).1.tokens == ParseText(text, cw).value
  {
    AppendTextIsPushAll(sh, text, cw);
    ParseTextCount(text, cw);
    PushAllKeepsTokens(sh, ParseText(text, cw).value);
  }
}
