/**
 * The character buffer of the first generation of the library
 * (cnc_library.c): a NUL-terminated byte array of `size + 1` bytes whose
 * first `length` bytes are the text.  C strings passed in are byte
 * sequences that hold a NUL; calen is the number of bytes before it.
 *
 * Each operation is a method on the class that is proved against a
 * function on the array's bytes; the properties the library promises
 * are lemmas about those functions.
 */
module CharBuffer {
  import opened Basics

  const Nul: Byte := 0
  const SpaceByte: Byte := 0x20

  /** `n` NUL bytes. */
  function Zeros(n: nat): (r: seq<Byte>)
    ensures |r| == n && forall i :: 0 <= i < n ==> r[i] == Nul
  {
    seq(n, _ => Nul)
  }

  /** calen: the number of bytes before the first NUL (all of them when there is none). */
  function CLen(s: seq<Byte>): (n: nat)
    ensures n <= |s|
    ensures forall i :: 0 <= i < n ==> s[i] != Nul
    ensures n < |s| ==> s[n] == Nul
  {
    if s == [] || s[0] == Nul then 0 else 1 + CLen(s[1..])
  }

  /** A C string: its bytes are terminated by a NUL. */
  predicate CString(s: seq<Byte>)
  {
    Nul in s
  }

  /** The loop of calen. */
  method CalenOf(s: seq<Byte>) returns (n: nat)
    ensures n == CLen(s)
  {
    n := 0;
    while n < |s| && s[n] != Nul
      invariant n <= |s|
      invariant forall i :: 0 <= i < n ==> s[i] != Nul
    {
      n := n + 1;
    }
  }

  // ---------------------------------------------------------------------
  // The operations as functions on the array's bytes
  // ---------------------------------------------------------------------

  /** cnc_buffer_set_text: the first min(calen(text), size) bytes of `text`, then NULs. */
  function TextSet(size: nat, text: seq<Byte>): (r: seq<Byte>)
    ensures |r| == size + 1
  {
    var n := Min(CLen(text), size);
    text[..n] + Zeros(size + 1 - n)
  }

  /** cnc_buffer_replace: `orig` becomes `dest` among the first `length` bytes. */
  function ReplacedIn(bytes: seq<Byte>, length: nat, orig: Byte, dest: Byte): (r: seq<Byte>)
    requires length <= |bytes|
    ensures |r| == |bytes|
  {
    seq(|bytes|, i requires 0 <= i < |bytes| => if i < length && bytes[i] == orig then dest else bytes[i])
  }

  /**
   * How many bytes cnc_buffer_replace_text copies: none when `start` is
   * past the text or `textStart` past the source string, and otherwise
   * no more than `len`, than the room before `size`, or than the source
   * has from `textStart` on.
   */
  function ReplaceCount(length: nat, size: nat, start: nat, len: nat, textLength: nat, textStart: nat): (n: nat)
    requires length <= size
    ensures start > length || textStart > textLength ==> n == 0
    ensures n > 0 ==> start + n <= size && textStart + n <= textLength && n <= len
  {
    if start > length || textStart > textLength then 0
    else Min(Min(len, size - start), textLength - textStart)
  }

  /** The bytes after copying `src` over the array from `start`. */
  function Overwritten(bytes: seq<Byte>, start: nat, src: seq<Byte>): (r: seq<Byte>)
    requires start + |src| <= |bytes|
    ensures |r| == |bytes|
  {
    bytes[..start] + src + bytes[start + |src|..]
  }

  /** cnc_buffer_replace_char: `c` over the text bytes from `start` to `start + len`. */
  function CharsReplaced(bytes: seq<Byte>, length: nat, start: nat, len: nat, c: Byte): (r: seq<Byte>)
    requires length <= |bytes|
    ensures |r| == |bytes|
  {
    if start > length then bytes
    else
      var end := Min(start + len, length);
      Overwritten(bytes, start, Repeat(c, end - start))
  }

  /**
   * The bytes after `ins` is put in at `at` of a text of `length` bytes:
   * the tail moves right by |ins| and a NUL ends the longer text; the
   * bytes after that NUL stay.
   */
  function InsertedBytes(bytes: seq<Byte>, length: nat, at: nat, ins: seq<Byte>): (r: seq<Byte>)
    requires at <= length && length + |ins| < |bytes|
    ensures |r| == |bytes|
  {
    bytes[..at] + ins + bytes[at..length] + [Nul] + bytes[length + |ins| + 1..]
  }

  /** Where the insert functions put their bytes: at `start`, or at the end of the text when `start` is past it. */
  function InsertPoint(length: nat, start: nat): nat
  {
    Min(start, length)
  }

  /** How many bytes cnc_buffer_insert_text puts in: at most `len`, calen(text) and the room left. */
  function InsertTextCount(length: nat, size: nat, len: nat, textLength: nat): (n: nat)
    requires length <= size
    ensures n <= len && n <= textLength && length + n <= size
  {
    var n := Min(len, textLength);
    if length + n > size then size - length else n
  }

  /** How many bytes cnc_buffer_insert_char puts in: `len`, or the room left when that is less. */
  function InsertCharCount(length: nat, size: nat, len: nat): (n: nat)
    requires length <= size
    ensures n <= len && length + n <= size
  {
    if length + len > size then size - length else len
  }

  /**
   * cnc_buffer_delete_char at `location`: the bytes after it, up to and
   * including the one at `length`, move left by one and a NUL goes where
   * the last of them was.
   */
  function DeletedBytes(bytes: seq<Byte>, length: nat, location: nat): (r: seq<Byte>)
    requires location <= length < |bytes|
    ensures |r| == |bytes|
  {
    bytes[..location] + bytes[location + 1..length + 1] + [Nul] + bytes[length + 1..]
  }

  /** `needle` occurs in `text` at `i`. */
  predicate MatchAt(text: seq<Byte>, needle: seq<Byte>, i: nat)
  {
    i + |needle| <= |text| && text[i..i + |needle|] == needle
  }

  /** The index of the first byte that is not a space, from `i` on. */
  function SkipSpaces(s: seq<Byte>, i: nat): (r: nat)
    requires i <= |s|
    ensures i <= r <= |s| && (r < |s| ==> s[r] != SpaceByte)
    ensures forall k :: i <= k < r ==> s[k] == SpaceByte
    decreases |s| - i
  {
    if i == |s| || s[i] != SpaceByte then i else SkipSpaces(s, i + 1)
  }

  /** The end of the text once trailing spaces are dropped, scanning back from `e`, never below `floor`. */
  function TrimEnd(s: seq<Byte>, floor: nat, e: nat): (r: nat)
    requires floor <= e <= |s|
    ensures floor <= r <= e && (r > floor ==> s[r - 1] != SpaceByte)
    ensures forall k :: r <= k < e ==> s[k] == SpaceByte
  {
    if e == floor || s[e - 1] != SpaceByte then e else TrimEnd(s, floor, e - 1)
  }

  /** The string `s` without its leading and trailing spaces. */
  function Trimmed(s: seq<Byte>): seq<Byte>
  {
    var start := SkipSpaces(s, 0);
    s[start..TrimEnd(s, start, |s|)]
  }

  // ---------------------------------------------------------------------
  // Properties
  // ---------------------------------------------------------------------

  /** After set_text the text is the start of `text` and ends at the first NUL. */
  lemma SetTextTerminates(size: nat, text: seq<Byte>)
    ensures var n := Min(CLen(text), size);
      TextSet(size, text)[..n] == text[..n] && CLen(TextSet(size, text)) == n
  {
    var n := Min(CLen(text), size);
    var r := TextSet(size, text);
    assert r[n] == Nul;
    assert forall i :: 0 <= i < n ==> r[i] == text[i];
    CLenAt(r, n);
  }

  /** The NUL at `n` after `n` other bytes is where calen stops. */
  lemma CLenAt(s: seq<Byte>, n: nat)
    requires n < |s| && s[n] == Nul && forall i :: 0 <= i < n ==> s[i] != Nul
    ensures CLen(s) == n
  {
  }

  /**
   * replace changes only the text: every `orig` in it becomes `dest`, and
   * no other byte changes.
   */
  lemma ReplaceOnlyOrig(bytes: seq<Byte>, length: nat, orig: Byte, dest: Byte)
    requires length <= |bytes|
    ensures forall i :: 0 <= i < |bytes| && (i >= length || bytes[i] != orig) ==> ReplacedIn(bytes, length, orig, dest)[i] == bytes[i]
    ensures forall i :: 0 <= i < length && bytes[i] == orig ==> ReplacedIn(bytes, length, orig, dest)[i] == dest
    ensures orig != dest ==> forall i :: 0 <= i < length ==> ReplacedIn(bytes, length, orig, dest)[i] != orig
  {
  }

  /** replace_char writes `c` on text bytes only, from `start` up to `start + len` or the end of the text. */
  lemma ReplaceCharStaysInText(bytes: seq<Byte>, length: nat, start: nat, len: nat, c: Byte, i: nat)
    requires length <= |bytes| && i < |bytes|
    ensures var r := CharsReplaced(bytes, length, start, len, c);
      r[i] == if start <= length && start <= i < start + len && i < length then c else bytes[i]
  {
  }

  /** replace_text never writes at or past `size`, and the text grows only to cover what was written. */
  lemma ReplaceTextStaysInBuffer(bytes: seq<Byte>, length: nat, size: nat, start: nat, len: nat, text: seq<Byte>, textStart: nat)
    requires length <= size < |bytes| && CString(text)
    ensures var n := ReplaceCount(length, size, start, len, CLen(text), textStart);
      && (n > 0 ==> Overwritten(bytes, start, text[textStart..textStart + n])[size..] == bytes[size..])
      && (n > 0 ==> Overwritten(bytes, start, text[textStart..textStart + n])[start..start + n] == text[textStart..textStart + n])
  {
  }

  /** Inserting puts `ins` into the text at `at` and keeps the text NUL-terminated. */
  lemma InsertedText(bytes: seq<Byte>, length: nat, at: nat, ins: seq<Byte>)
    requires at <= length && length + |ins| < |bytes|
    ensures var r := InsertedBytes(bytes, length, at, ins);
      r[..length + |ins|] == bytes[..at] + ins + bytes[at..length] && r[length + |ins|] == Nul
  {
    var r := InsertedBytes(bytes, length, at, ins);
    assert r[..length + |ins|] == bytes[..at] + ins + bytes[at..length];
  }

  /** Deleting drops the byte at `location` from the text; at `location == length` the text only gets shorter. */
  lemma DeletedText(bytes: seq<Byte>, length: nat, location: nat)
    requires location <= length < |bytes| && length > 0
    ensures var r := DeletedBytes(bytes, length, location);
      && (location < length ==> r[..length - 1] == bytes[..location] + bytes[location + 1..length])
      && (location == length ==> r[..length - 1] == bytes[..length - 1])
      && r[length] == Nul
  {
    var r := DeletedBytes(bytes, length, location);
    if location < length {
      assert r[..length - 1] == bytes[..location] + bytes[location + 1..length];
    } else {
      assert r[..length - 1] == bytes[..length - 1];
    }
  }

  /** A byte put in at `at` and then deleted there gives the old text back. */
  lemma InsertThenDelete(bytes: seq<Byte>, length: nat, at: nat, c: Byte)
    requires at <= length && length + 1 < |bytes|
    ensures DeletedBytes(InsertedBytes(bytes, length, at, [c]), length + 1, at)[..length] == bytes[..length]
  {
    var r := InsertedBytes(bytes, length, at, [c]);
    InsertedText(bytes, length, at, [c]);
    DeletedText(r, length + 1, at);
    assert r[..at] == bytes[..at];
    assert r[at + 1..length + 1] == bytes[at..length];
    assert bytes[..at] + bytes[at..length] == bytes[..length];
  }

  /** Trimming leaves no space at either end, and drops a string of spaces altogether. */
  lemma TrimmedHasNoOuterSpaces(s: seq<Byte>)
    ensures var t := Trimmed(s);
      && (|t| > 0 ==> t[0] != SpaceByte && t[|t| - 1] != SpaceByte)
      && ((forall i :: 0 <= i < |s| ==> s[i] == SpaceByte) <==> t == [])
  {
    var start := SkipSpaces(s, 0);
    var end := TrimEnd(s, start, |s|);
    if start < |s| {
      assert s[start] != SpaceByte;
      assert end > start;
    }
  }

  /** What trimming keeps is a run of `s`, from its first byte that is not a space to its last. */
  lemma TrimmedIsInner(s: seq<Byte>)
    ensures exists a, b ::
      && 0 <= a <= b <= |s| && Trimmed(s) == s[a..b]
      && (forall k :: 0 <= k < a ==> s[k] == SpaceByte) && (forall k :: b <= k < |s| ==> s[k] == SpaceByte)
  {
    var a := SkipSpaces(s, 0);
    var b := TrimEnd(s, a, |s|);
    assert Trimmed(s) == s[a..b];
  }

  /** Trimming twice is trimming once. */
  lemma TrimIdempotent(s: seq<Byte>)
    ensures Trimmed(Trimmed(s)) == Trimmed(s)
  {
    var t := Trimmed(s);
    TrimmedHasNoOuterSpaces(s);
    if |t| > 0 {
      assert SkipSpaces(t, 0) == 0;
      assert TrimEnd(t, 0, |t|) == |t|;
    }
  }

  // ---------------------------------------------------------------------
  // The end scan of cnc_buffer_trim, as written and as intended
  // ---------------------------------------------------------------------

  /**
   * The backward scan of cnc_buffer_trim as written: `end` starts at
   * calen - 1 and steps back while the byte there is a space, with no
   * stop at the front.  A result below 0 is the index the `size_t`
   * wraps to: the scan reads before the array.
   */
  function TrimScanAsWritten(s: seq<Byte>, e: int): (r: int)
    requires e < |s|
    ensures r <= e && (r >= 0 ==> s[r] != SpaceByte)
    decreases e + 1
  {
    if e < 0 then e else if s[e] == SpaceByte then TrimScanAsWritten(s, e - 1) else e
  }

  /**
   * On an empty buffer the scan starts at index -1, and on a buffer of
   * spaces it walks down to -1: either way it reads outside the array.
   */
  lemma TrimScanRunsOffAsWritten()
    ensures CLen([Nul]) - 1 == -1
    ensures TrimScanAsWritten([SpaceByte, SpaceByte, Nul], CLen([SpaceByte, SpaceByte, Nul]) - 1) == -1
  {
    assert CLen([SpaceByte, SpaceByte, Nul]) == 2 by {
      CLenAt([SpaceByte, SpaceByte, Nul], 2);
    }
  }

  /** With a stop at the first non-space byte, the scan of a string that has one finds the same end as written. */
  lemma TrimEndAgrees(s: seq<Byte>, e: nat)
    requires e <= |s| && exists k :: 0 <= k < e && s[k] != SpaceByte
    ensures TrimScanAsWritten(s, e - 1) + 1 == TrimEnd(s, SkipSpaces(s, 0), e)
  {
    var k :| 0 <= k < e && s[k] != SpaceByte;
    assert SkipSpaces(s, 0) <= k;
    TrimEndAgreesFrom(s, SkipSpaces(s, 0), e);
  }

  lemma {:induction false} TrimEndAgreesFrom(s: seq<Byte>, floor: nat, e: nat)
    requires floor < |s| && floor < e <= |s| && s[floor] != SpaceByte
    ensures TrimScanAsWritten(s, e - 1) + 1 == TrimEnd(s, floor, e)
    decreases e
  {
    if s[e - 1] == SpaceByte {
      TrimEndAgreesFrom(s, floor, e - 1);
    }
  }

  // ---------------------------------------------------------------------
  // The buffer
  // ---------------------------------------------------------------------

  /** cnc_buffer: `size + 1` bytes of storage, the text in the first `length`. */
  class Buffer {
    var contents: array<Byte>
    var size: nat
    var length: nat

    /** The last byte is never written with anything but NUL, so calen of the contents stops inside them. */
    ghost predicate Valid()
      reads this, contents
    {
      contents.Length == size + 1 && length <= size && contents[size] == Nul
    }

    function Bytes(): seq<Byte>
      reads this, contents
    {
      contents[..]
    }

    /** The text: the first `length` bytes. */
    function Text(): seq<Byte>
      reads this, contents
      requires Valid()
    {
      contents[..length]
    }

    /** cnc_buffer_init: `size + 1` NUL bytes and no text. */
    constructor (size: nat)
      ensures Valid() && fresh(contents)
      ensures this.size == size && length == 0 && Bytes() == Zeros(size + 1)
    {
      contents := new Byte[size + 1](_ => Nul);
      this.size := size;
      length := 0;
    }

    /** cnc_buffer_resize: new storage of `size + 1` NUL bytes; the text is lost. */
    method Resize(newSize: nat)
      modifies this
      ensures Valid() && fresh(contents)
      ensures size == newSize && length == 0 && Bytes() == Zeros(newSize + 1)
    {
      contents := new Byte[newSize + 1](_ => Nul);
      size := newSize;
      length := 0;
    }

    /** cnc_buffer_set_text */
    method SetText(text: seq<Byte>)
      requires Valid() && CString(text)
      modifies contents, this
      ensures Valid() && contents == old(contents) && size == old(size)
      ensures length == Min(CLen(text), size)
      ensures Bytes() == TextSet(size, text)
    {
      var n := CalenOf(text);
      length := if n > size then size else n;
      var i := 0;
      while i <= size
        invariant 0 <= i <= size + 1 && length == Min(CLen(text), size)
        invariant contents == old(contents) && size == old(size) && contents.Length == size + 1
        invariant forall k :: 0 <= k < i ==> contents[k] == TextSet(size, text)[k]
      {
        if i < length {
          contents[i] := text[i];
        } else {
          contents[i] := Nul;
        }
        i := i + 1;
      }
      assert Bytes() == TextSet(size, text);
    }

    /** cnc_buffer_replace */
    method Replace(orig: Byte, dest: Byte)
      requires Valid()
      modifies contents
      ensures Valid() && Bytes() == ReplacedIn(old(Bytes()), length, orig, dest)
    {
      ghost var before := Bytes();
      var i := 0;
      while i < length
        invariant 0 <= i <= length
        invariant forall k :: 0 <= k < i ==> contents[k] == ReplacedIn(before, length, orig, dest)[k]
        invariant forall k :: i <= k < contents.Length ==> contents[k] == before[k]
      {
        if contents[i] == orig {
          contents[i] := dest;
        }
        i := i + 1;
      }
      assert Bytes() == ReplacedIn(before, length, orig, dest);
    }

    /** cnc_buffer_replace_text: bytes of `text` from `textStart` over the text from `start`. */
    method ReplaceText(start: nat, len: nat, text: seq<Byte>, textStart: nat)
      requires Valid() && CString(text)
      modifies contents, this
      ensures Valid() && contents == old(contents) && size == old(size)
      ensures var n := ReplaceCount(old(length), size, start, len, CLen(text), textStart);
        && (n == 0 ==> Bytes() == old(Bytes()) && length == old(length))
        && (n > 0 ==> Bytes() == Overwritten(old(Bytes()), start, text[textStart..textStart + n]))
        && (n > 0 ==> length == if start + n > old(length) then start + n else old(length))
    {
      var textLength := CalenOf(text);
      if start > length {
        return;
      }
      length := CopyText(contents, length, size, start, len, text, textLength, textStart);
    }

    /** cnc_buffer_replace_char */
    method ReplaceChar(start: nat, len: nat, c: Byte)
      requires Valid()
      modifies contents
      ensures Valid() && Bytes() == CharsReplaced(old(Bytes()), length, start, len, c)
    {
      ghost var before := Bytes();
      if start > length {
        return;
      }
      var i := start;
      while i < start + len
        invariant start <= i <= Min(start + len, length)
        invariant forall k :: start <= k < i ==> contents[k] == c
        invariant forall k :: 0 <= k < contents.Length && !(start <= k < i) ==> contents[k] == before[k]
      {
        if i >= length {
          break;
        }
        contents[i] := c;
        i := i + 1;
      }
      assert Bytes() == CharsReplaced(before, length, start, len, c);
    }

    /** The two loops both inserts share: open a gap of |ins| at `at`, fill it, and end the text with a NUL. */
    method InsertAt(at: nat, ins: seq<Byte>)
      requires Valid() && at <= length && length + |ins| <= size
      modifies contents, this
      ensures Valid() && contents == old(contents) && size == old(size)
      ensures length == old(length) + |ins|
      ensures Bytes() == InsertedBytes(old(Bytes()), old(length), at, ins)
    {
      ghost var before := Bytes();
      var n := |ins|;
      var end := length;
      var a := contents;
      ShiftRight(a, at, end, n);
      ghost var shifted := a[..];
      Fill(a, at, ins);
      ghost var filled := a[..];
      a[end + n] := Nul;
      InsertSteps(before, end, at, ins, shifted, filled);
      assert a[..] == filled[end + n := Nul];
      length := length + n;
    }

    /** cnc_buffer_insert_text: nothing when `start` is not below `size`; returns the number of bytes put in. */
    method InsertText(start: nat, len: nat, text: seq<Byte>) returns (n: nat)
      requires Valid() && CString(text)
      modifies contents, this
      ensures Valid() && contents == old(contents) && size == old(size)
      ensures start >= size ==> n == 0 && length == old(length) && Bytes() == old(Bytes())
      ensures start < size ==>
        && n == InsertTextCount(old(length), size, len, CLen(text))
        && length == old(length) + n
        && Bytes() == InsertedBytes(old(Bytes()), old(length), InsertPoint(old(length), start), text[..n])
    {
      if start >= size {
        return 0;
      }
      var at := if start > length then length else start;
      var textLength := CalenOf(text);
      n := if len > textLength then textLength else len;
      if length + n > size {
        n := size - length;
      }
      InsertAt(at, text[..n]);
    }

    /** cnc_buffer_append: insert_text at the end of the text. */
    method Append(text: seq<Byte>) returns (n: nat)
      requires Valid() && CString(text)
      modifies contents, this
      ensures Valid() && contents == old(contents) && size == old(size)
      ensures old(length) == size ==> n == 0 && length == old(length) && Bytes() == old(Bytes())
      ensures old(length) < size ==>
        && n == Min(CLen(text), size - old(length))
        && length == old(length) + n
        && Bytes() == InsertedBytes(old(Bytes()), old(length), old(length), text[..n])
        && Bytes()[..length] == old(Bytes())[..old(length)] + text[..n]
    {
      var textLength := CalenOf(text);
      n := InsertText(length, textLength, text);
      if old(length) < size {
        InsertedText(old(Bytes()), old(length), old(length), text[..n]);
      }
    }

    /** cnc_buffer_insert_char: `len` copies of `c`, as many as there is room for. */
    method InsertChar(start: nat, len: nat, c: Byte) returns (n: nat)
      requires Valid()
      modifies contents, this
      ensures Valid() && contents == old(contents) && size == old(size)
      ensures start >= size ==> n == 0 && length == old(length) && Bytes() == old(Bytes())
      ensures start < size ==>
        && n == InsertCharCount(old(length), size, len)
        && length == old(length) + n
        && Bytes() == InsertedBytes(old(Bytes()), old(length), InsertPoint(old(length), start), Repeat(c, n))
    {
      if start >= size {
        return 0;
      }
      var at := if start > length then length else start;
      n := if length + len > size then size - length else len;
      InsertAt(at, Repeat(c, n));
    }

    /** cnc_buffer_delete_char: refused on an empty text or past its end. */
    method DeleteChar(location: nat) returns (ok: bool)
      requires Valid()
      modifies contents, this
      ensures Valid() && contents == old(contents) && size == old(size)
      ensures ok <==> old(length) > 0 && location <= old(length)
      ensures ok ==> length == old(length) - 1 && Bytes() == DeletedBytes(old(Bytes()), old(length), location)
      ensures !ok ==> length == old(length) && Bytes() == old(Bytes())
    {
      if length == 0 || location > length {
        return false;
      }
      ghost var before := Bytes();
      ShiftLeft(contents, location, length + 1);
      contents[length] := Nul;
      length := length - 1;
      assert Bytes() == DeletedBytes(before, old(length), location);
      return true;
    }

    /** cnc_buffer_equal_string: the text is all of the contents up to their NUL, and it is `str`. */
    method EqualString(str: seq<Byte>) returns (eq: bool)
      requires Valid() && CString(str)
      ensures eq <==> length == CLen(Bytes()) && Text() == str[..CLen(str)]
    {
      var contentsLength := CalenOf(contents[..]);
      var strLength := CalenOf(str);
      if length != contentsLength || length != strLength {
        return false;
      }
      var i := 0;
      while i < length
        invariant 0 <= i <= length
        invariant contents[..i] == str[..i]
      {
        if contents[i] != str[i] {
          assert Text()[i] != str[..strLength][i];
          return false;
        }
        i := i + 1;
      }
      assert Text() == contents[..i];
      return true;
    }

    /**
     * cnc_buffer_locate_string: the first place the string occurs in the
     * text.  An empty text holds nothing, not even the empty string.
     */
    method LocateString(s: seq<Byte>) returns (found: bool, location: nat)
      requires Valid() && CString(s)
      ensures var needle := s[..CLen(s)];
        && (found <==> length > 0 && |needle| <= length && exists i :: MatchAt(Text(), needle, i))
        && (found ==> MatchAt(Text(), needle, location) && forall j :: 0 <= j < location ==> !MatchAt(Text(), needle, j))
    {
      var n := CalenOf(s);
      ghost var needle := s[..n];
      ghost var text := Text();
      if length == 0 || length < n {
        NoRoomNoMatch(text, needle);
        return false, 0;
      }
      if n == 0 {
        assert MatchAt(text, needle, 0);
        return true, 0;
      }
      var i := 0;
      while i <= length - n
        invariant 0 <= i <= length - n + 1
        invariant forall j :: 0 <= j < i ==> !MatchAt(text, needle, j)
      {
        var j := 0;
        while j < n && contents[i + j] == s[j]
          invariant 0 <= j <= n
          invariant forall k :: 0 <= k < j ==> text[i + k] == needle[k]
        {
          j := j + 1;
        }
        if j == n {
          assert text[i..i + n] == needle;
          assert MatchAt(text, needle, i);
          return true, i;
        }
        assert text[i..i + n][j] != needle[j];
        i := i + 1;
      }
      NoMatchPastEnd(text, needle, i);
      return false, 0;
    }

    /**
     * cnc_buffer_trim with the backward scan stopping at the front: the
     * text becomes the contents up to their NUL without leading and
     * trailing spaces, followed by NULs.  It goes through a scratch buffer
     * of the same size with replace_text and then set_text, as the
     * library does.
     */
    method Trim()
      requires Valid()
      modifies contents, this
      ensures Valid() && contents == old(contents) && size == old(size)
      ensures var t := Trimmed(old(Bytes())[..CLen(old(Bytes()))]);
        length == |t| && Bytes() == t + Zeros(size + 1 - |t|)
    {
      var start, end := TrimBounds();
      if end > start {
        KeepOnly(start, end);
      } else {
        Clear();
      }
    }

    /** The text becomes bytes start..end of the contents, through a scratch buffer as trim does it. */
    method KeepOnly(start: nat, end: nat)
      requires Valid() && start < end <= CLen(Bytes())
      modifies contents, this
      ensures Valid() && contents == old(contents) && size == old(size)
      ensures var t := old(Bytes())[start..end];
        length == |t| && Bytes() == t + Zeros(size + 1 - |t|)
    {
      ghost var bytes := Bytes();
      var temp := new Buffer(size);
      ghost var blank := temp.Bytes();
      assert ReplaceCount(0, size, 0, end - start, CLen(bytes), start) == end - start;
      temp.ReplaceText(0, end - start, contents[..], start);
      assert temp.Bytes() == Overwritten(blank, 0, bytes[start..end]);
      TrimCopy(bytes, size, start, end, blank, temp.Bytes());
      SetText(temp.contents[..]);
    }

    /** The two scans of cnc_buffer_trim, the backward one stopping at the first byte kept. */
    method TrimBounds() returns (start: nat, end: nat)
      requires Valid()
      ensures start <= end <= CLen(Bytes())
      ensures Trimmed(Bytes()[..CLen(Bytes())]) == Bytes()[start..end]
    {
      var e := CalenOf(contents[..]);
      ghost var str := contents[..e];
      start := 0;
      while contents[start] == SpaceByte
        invariant start <= e && SkipSpaces(str, 0) == SkipSpaces(str, start)
        decreases e - start
      {
        start := start + 1;
      }
      end := e;
      while end > start && contents[end - 1] == SpaceByte
        invariant start <= end <= e && TrimEnd(str, start, end) == TrimEnd(str, start, e)
      {
        end := end - 1;
      }
      assert str[start..end] == contents[start..end];
    }

    /** cnc_buffer_clear: NULs over the first `size` bytes, and no text. */
    method Clear()
      requires Valid()
      modifies contents, this
      ensures Valid() && contents == old(contents) && size == old(size)
      ensures length == 0 && Bytes() == Zeros(size + 1)
    {
      var i := 0;
      while i < size
        invariant 0 <= i <= size
        invariant contents == old(contents) && size == old(size) && contents.Length == size + 1
        invariant forall k :: 0 <= k < i ==> contents[k] == Nul
        invariant contents[size] == Nul
      {
        contents[i] := Nul;
        i := i + 1;
      }
      length := 0;
      assert Bytes() == Zeros(size + 1);
    }
  }

  /** The shift, the copy and the closing NUL of the insert loops together make InsertedBytes. */
  lemma InsertSteps(b: seq<Byte>, length: nat, at: nat, ins: seq<Byte>, s1: seq<Byte>, s2: seq<Byte>)
    requires at <= length && length + |ins| < |b|
    requires s1 == b[..at + |ins|] + b[at..length] + b[length + |ins|..]
    requires s2 == s1[..at] + ins + s1[at + |ins|..]
    ensures s2[length + |ins| := Nul] == InsertedBytes(b, length, at, ins)
  {
    var n := |ins|;
    assert s1[..at] == b[..at];
    assert s1[at + n..] == b[at..length] + b[length + n..];
    assert s2 == b[..at] + ins + b[at..length] + b[length + n..];
    assert b[length + n..] == [b[length + n]] + b[length + n + 1..];
  }

  /** A needle longer than the text, or an empty text, has no match (the locate loop is never entered). */
  lemma NoRoomNoMatch(text: seq<Byte>, needle: seq<Byte>)
    ensures |text| < |needle| ==> forall i :: !MatchAt(text, needle, i)
  {
  }

  /** Past the last start that leaves room for the needle there is no match. */
  lemma NoMatchPastEnd(text: seq<Byte>, needle: seq<Byte>, i: nat)
    requires |needle| <= |text| && i == |text| - |needle| + 1
    requires forall j :: 0 <= j < i ==> !MatchAt(text, needle, j)
    ensures forall j :: !MatchAt(text, needle, j)
  {
  }

  /** The move of a[lo..hi] up by n bytes, as the insert loops do it, from the top down. */
  method ShiftRight(a: array<Byte>, lo: nat, hi: nat, n: nat)
    requires lo <= hi && hi + n <= a.Length
    modifies a
    ensures a[..] == old(a[..lo + n]) + old(a[lo..hi]) + old(a[hi + n..])
  {
    ghost var before := a[..];
    var i := hi + n;
    while i > lo + n
      invariant lo + n <= i <= hi + n
      invariant forall k :: i <= k < hi + n ==> a[k] == before[k - n]
      invariant forall k :: 0 <= k < a.Length && !(i <= k < hi + n) ==> a[k] == before[k]
    {
      i := i - 1;
      a[i] := a[i - n];
    }
    assert a[..] == before[..lo + n] + before[lo..hi] + before[hi + n..];
  }

  /** The move of a[lo+1..hi] down by one byte, as the delete loop does it. */
  method ShiftLeft(a: array<Byte>, lo: nat, hi: nat)
    requires lo < hi <= a.Length
    modifies a
    ensures a[..] == old(a[..lo]) + old(a[lo + 1..hi]) + old(a[hi - 1..])
  {
    ghost var before := a[..];
    var i := lo;
    while i < hi - 1
      invariant lo <= i <= hi - 1
      invariant forall k :: lo <= k < i ==> a[k] == before[k + 1]
      invariant forall k :: 0 <= k < a.Length && !(lo <= k < i) ==> a[k] == before[k]
    {
      a[i] := a[i + 1];
      i := i + 1;
    }
    assert a[..] == before[..lo] + before[lo + 1..hi] + before[hi - 1..];
  }

  /** The copy of `src` into a from `lo`. */
  method Fill(a: array<Byte>, lo: nat, src: seq<Byte>)
    requires lo + |src| <= a.Length
    modifies a
    ensures a[..] == old(a[..lo]) + src + old(a[lo + |src|..])
  {
    ghost var before := a[..];
    var j := lo;
    while j < lo + |src|
      invariant lo <= j <= lo + |src|
      invariant forall k :: lo <= k < j ==> a[k] == src[k - lo]
      invariant forall k :: 0 <= k < a.Length && !(lo <= k < j) ==> a[k] == before[k]
    {
      a[j] := src[j - lo];
      j := j + 1;
    }
    assert a[..] == before[..lo] + src + before[lo + |src|..];
  }

  /** The copy loop of replace_text: it stops at `size`, at the end of the source string, or after `len` bytes, and the text grows as the copy passes its end. */
  method CopyText(a: array<Byte>, length: nat, size: nat, start: nat, len: nat, text: seq<Byte>, textLength: nat, textStart: nat)
    returns (newLength: nat)
    requires length <= size < a.Length && start <= length && textLength <= |text|
    modifies a
    ensures var n := ReplaceCount(length, size, start, len, textLength, textStart);
      && (n == 0 ==> a[..] == old(a[..]) && newLength == length)
      && (n > 0 ==> a[..] == Overwritten(old(a[..]), start, text[textStart..textStart + n]))
      && (n > 0 ==> newLength == if start + n > length then start + n else length)
  {
    ghost var n := ReplaceCount(length, size, start, len, textLength, textStart);
    ghost var before := a[..];
    newLength := length;
    var i := start;
    while i < start + len
      invariant start <= i <= start + n
      invariant i > start ==> textStart + (i - start) <= textLength
      invariant newLength == if i > length then i else length
      invariant forall k :: start <= k < i ==> a[k] == text[textStart + k - start]
      invariant forall k :: 0 <= k < a.Length && !(start <= k < i) ==> a[k] == before[k]
      decreases start + len - i
    {
      if i >= size {
        break;
      }
      if i - start + textStart < textLength {
        a[i] := text[i - start + textStart];
        if i >= newLength {
          newLength := newLength + 1;
        }
      } else {
        break;
      }
      i := i + 1;
    }
    assert i == start + n;
    if n > 0 {
      assert a[..] == Overwritten(before, start, text[textStart..textStart + n]);
    } else {
      assert a[..] == before;
    }
  }

  /**
   * The scratch copy trim makes: replace_text of the kept bytes into an
   * empty buffer of the same size copies all of them, and set_text of
   * the copy takes it whole.
   */
  lemma TrimCopy(bytes: seq<Byte>, size: nat, start: nat, end: nat, blank: seq<Byte>, copied: seq<Byte>)
    requires |bytes| == size + 1 && bytes[size] == Nul && start < end <= CLen(bytes) && blank == Zeros(size + 1)
    requires copied == Overwritten(blank, 0, bytes[start..end])
    ensures CString(bytes)
    ensures var t := bytes[start..end];
      && copied == t + Zeros(size + 1 - |t|)
      && CLen(copied) == |t| && TextSet(size, copied) == copied
  {
    assert bytes[size] == Nul;
    var t := bytes[start..end];
    assert copied == t + Zeros(size + 1 - |t|);
    CLenAt(copied, |t|);
    assert TextSet(size, copied) == copied;
  }
}
