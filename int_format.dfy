/**
 * cnc_i_to_cca: a 64-bit integer as decimal text in a static buffer of
 * 27 characters, optionally with a comma before every group of three
 * digits and padded on the left with spaces to a field width.
 *
 * The method follows the library's loops over the buffer and is proved
 * against FormatAsWritten.  As written, a negative number comes out as
 * "-" alone: the digit loop sits in the branch for positive numbers, so
 * the magnitude of a negative number is never written.  Format is the
 * intended result, and the lemmas below show it reads back as the
 * number it came from.
 */
module IntFormat {
  import opened Basics

  const Int64Min: int := -0x8000_0000_0000_0000
  const Int64Max: int := 0x7FFF_FFFF_FFFF_FFFF

  /** int64_t */
  type Int64 = x: int | Int64Min <= x <= Int64Max
  /** int8_t */
  type Int8 = x: int | -0x80 <= x < 0x80

  /** The size of the static buffer. */
  const BufferSize: nat := 27
  const NulChar: char := 0 as char

  function DigitChar(d: nat): (c: char)
    requires d < 10
    ensures '0' <= c <= '9'
  {
    (('0' as int) + d) as char
  }

  function DigitValue(c: char): nat
  {
    if '0' <= c <= '9' then (c as int) - ('0' as int) else 0
  }

  function Pow10(k: nat): (r: nat)
    ensures r > 0
  {
    if k == 0 then 1 else 10 * Pow10(k - 1)
  }

  /** The decimal digits of `n`, most significant first; none for 0. */
  function DigitsOf(n: nat): (r: seq<char>)
    ensures forall i :: 0 <= i < |r| ==> '0' <= r[i] <= '9'
    ensures n > 0 ==> |r| > 0 && r[0] != '0'
  {
    if n == 0 then [] else DigitsOf(n / 10) + [DigitChar(n % 10)]
  }

  /** The decimal text of `n`: "0" for 0. */
  function Decimal(n: nat): seq<char>
  {
    if n == 0 then ['0'] else DigitsOf(n)
  }

  /** The number a string of digits stands for. */
  function ValueOf(s: seq<char>): nat
  {
    if s == [] then 0 else 10 * ValueOf(s[..|s| - 1]) + DigitValue(s[|s| - 1])
  }

  function Reverse<T>(s: seq<T>): (r: seq<T>)
    ensures |r| == |s|
  {
    seq(|s|, k requires 0 <= k < |s| => s[|s| - 1 - k])
  }

  /**
   * The separator loop of cnc_i_to_cca from position `j` on: a comma goes
   * before the character at `j` when a multiple of three characters
   * start there, it is not the first, and it is not a '-'.
   */
  function SeparatedFrom(s: seq<char>, j: nat): (r: seq<char>)
    requires j <= |s|
    decreases |s| - j
  {
    if j == |s| then []
    else (if CommaBefore(s, j) then [','] else []) + [s[j]] + SeparatedFrom(s, j + 1)
  }

  /** Whether the separator loop puts a comma in front of s[j]. */
  predicate CommaBefore(s: seq<char>, j: nat)
    requires j < |s|
  {
    j > 0 && (|s| - j) % 3 == 0 && s[j] != '-'
  }

  /** The digits in groups of three from the right, separated by commas. */
  function Grouped(d: seq<char>): seq<char>
    decreases |d|
  {
    if |d| <= 3 then d else Grouped(d[..|d| - 3]) + [','] + d[|d| - 3..]
  }

  /** A string with no comma in it. */
  predicate Plain(s: seq<char>)
  {
    forall i :: 0 <= i < |s| ==> s[i] != ','
  }

  /** The string without its commas. */
  function Ungroup(s: seq<char>): (r: seq<char>)
    ensures Plain(r)
  {
    if s == [] then [] else (if s[0] == ',' then [] else [s[0]]) + Ungroup(s[1..])
  }

  /** The field width: `width` when it is from 0 to 26, and 0 otherwise. */
  function FieldWidth(width: Int8): (w: nat)
    ensures w < BufferSize
  {
    if width < 0 || width > 26 then 0 else width
  }

  /** `s` with spaces in front up to `w` characters. */
  function Padded(s: seq<char>, w: nat): (r: seq<char>)
    ensures |r| == if |s| < w then w else |s|
  {
    if |s| < w then Repeat(' ', w - |s|) + s else s
  }

  /** What cnc_i_to_cca writes before the separators: "-" for INT64_MIN, nothing for another negative, "0", or the digits. */
  function Unsigned(num: Int64): seq<char>
  {
    if num == Int64Min then ['-']
    else if num < 0 then []
    else if num == 0 then ['0']
    else DigitsOf(num)
  }

  /** The sign step: the text str[..i] moves up one place and '-' goes in front. */
  method PrependMinus(str: array<char>, i: nat) returns (i': nat)
    requires i < str.Length - 1
    modifies str
    ensures i' == i + 1 && str[..i'] == ['-'] + old(str[..i])
  {
    ghost var prev := str[..];
    ShiftUp(str, 0, i + 1, 1);
    ghost var shifted := str[..];
    str[0] := '-';
    assert str[..] == shifted[0 := '-'];
    MinusPrepended(prev, shifted, i);
    i' := i + 1;
  }

  /** The shift by one and the '-' written at 0. */
  lemma MinusPrepended(prev: seq<char>, shifted: seq<char>, i: nat)
    requires i + 2 <= |prev| == |shifted|
    requires forall m :: 1 <= m < i + 2 ==> shifted[m] == prev[m - 1]
    ensures shifted[0 := '-'][..i + 1] == ['-'] + prev[..i]
  {
    var r := shifted[0 := '-'];
    assert forall k :: 0 < k <= i ==> r[k] == prev[k - 1];
  }

  /** The padding step: the text str[..i] moves up to end at fwidth and spaces fill the front. */
  method PadLeft(str: array<char>, i: nat, fwidth: nat)
    requires i < fwidth < str.Length
    modifies str
    ensures str[..fwidth] == Repeat(' ', fwidth - i) + old(str[..i])
  {
    ghost var signed := str[..i];
    var padding := fwidth - i;
    ShiftUp(str, 0, i + 1, padding);
    assert forall m :: padding <= m < fwidth ==> str[m] == signed[m - padding];
    assert str[padding..fwidth] == signed;
    var j := 0;
    while j < padding
      invariant j <= padding
      invariant forall m :: 0 <= m < j ==> str[m] == ' '
      invariant str[padding..fwidth] == signed
    {
      str[j] := ' ';
      j := j + 1;
    }
    ghost var out := str[..fwidth];
    assert out[..padding] == Repeat(' ', padding);
    assert out[padding..] == signed;
    SplitAt(out, padding);
  }

  lemma SplitAt(a: seq<char>, k: nat)
    requires k <= |a|
    ensures a == a[..k] + a[k..]
  {
  }

  /** cnc_i_to_cca as written. */
  function FormatAsWritten(num: Int64, thousandSeparator: bool, width: Int8): (r: seq<char>)
    ensures |r| >= FieldWidth(width)
  {
    var u := Unsigned(num);
    var s := if thousandSeparator then SeparatedFrom(u, 0) else u;
    Padded(if num < 0 && num != Int64Min then ['-'] + s else s, FieldWidth(width))
  }

  /**
   * cnc_i_to_cca as intended: the sign, then the digits of the magnitude.
   * For INT64_MIN this prints the true magnitude 9223372036854775808; the
   * code's own branch for that value substitutes INT64_MAX, so its authors
   * evidently meant ...807 there, which this function does not follow.
   */
  function Format(num: Int64, thousandSeparator: bool, width: Int8): (r: seq<char>)
    ensures |r| >= FieldWidth(width)
  {
    var d := Decimal(Magnitude(num));
    Padded((if num < 0 then ['-'] else []) + (if thousandSeparator then Grouped(d) else d), FieldWidth(width))
  }

  /** The absolute value, which for INT64_MIN does not fit an int64. */
  function Magnitude(num: int): (n: nat)
    ensures n == num || n == -num
  {
    if num < 0 then -num else num
  }

  /** Reads back a string Format produced: spaces first, an optional '-', then digits and commas. */
  function Unformat(s: seq<char>): int
    decreases |s|
  {
    if s != [] && s[0] == ' ' then Unformat(s[1..])
    else if s != [] && s[0] == '-' then 0 - ValueOf(Ungroup(s[1..])) as int
    else ValueOf(Ungroup(s))
  }

  // ---------------------------------------------------------------------
  // Properties
  // ---------------------------------------------------------------------

  lemma ReverseSnoc<T>(s: seq<T>, x: T)
    ensures Reverse(s + [x]) == [x] + Reverse(s)
  {
  }

  lemma ReverseReverse<T>(s: seq<T>)
    ensures Reverse(Reverse(s)) == s
  {
  }

  /** Reading the digits of `n` back gives `n`. */
  lemma {:induction false} ValueOfDigits(n: nat)
    ensures ValueOf(DigitsOf(n)) == n
  {
    if n > 0 {
      var d := DigitsOf(n);
      assert d[..|d| - 1] == DigitsOf(n / 10);
      ValueOfDigits(n / 10);
    }
  }

  lemma ValueOfDecimal(n: nat)
    ensures ValueOf(Decimal(n)) == n
  {
    if n == 0 {
      assert ValueOf(['0']) == 10 * ValueOf([]) + DigitValue('0');
    } else {
      ValueOfDigits(n);
    }
  }

  /** A number below 10^k has at most k digits. */
  lemma {:induction false} DigitsOfLength(n: nat, k: nat)
    requires n < Pow10(k)
    ensures |DigitsOf(n)| <= k
  {
    if n > 0 {
      DigitsOfLength(n / 10, k - 1);
    }
  }

  /** Every int64 magnitude has at most 19 digits. */
  lemma Int64Digits(n: nat)
    requires n <= Int64Max + 1
    ensures |DigitsOf(n)| <= 19
  {
    assert Pow10(1) == 10;
    assert Pow10(2) == 100;
    assert Pow10(3) == 1000;
    assert Pow10(4) == 10000;
    assert Pow10(5) == 100000;
    assert Pow10(6) == 1000000;
    assert Pow10(7) == 10000000;
    assert Pow10(8) == 100000000;
    assert Pow10(9) == 1000000000;
    assert Pow10(10) == 10000000000;
    assert Pow10(11) == 100000000000;
    assert Pow10(12) == 1000000000000;
    assert Pow10(13) == 10000000000000;
    assert Pow10(14) == 100000000000000;
    assert Pow10(15) == 1000000000000000;
    assert Pow10(16) == 10000000000000000;
    assert Pow10(17) == 100000000000000000;
    assert Pow10(18) == 1000000000000000000;
    assert Pow10(19) == 10000000000000000000;
    DigitsOfLength(n, 19);
  }

  lemma {:induction false} UngroupAppend(a: seq<char>, b: seq<char>)
    ensures Ungroup(a + b) == Ungroup(a) + Ungroup(b)
  {
    if a != [] {
      var head := if a[0] == ',' then [] else [a[0]];
      assert (a + b)[0] == a[0];
      assert (a + b)[1..] == a[1..] + b;
      assert Ungroup(a + b) == head + Ungroup(a[1..] + b);
      UngroupAppend(a[1..], b);
      assert head + (Ungroup(a[1..]) + Ungroup(b)) == (head + Ungroup(a[1..])) + Ungroup(b);
    } else {
      assert a + b == b;
    }
  }

  lemma {:induction false} UngroupDigits(d: seq<char>)
    requires Plain(d)
    ensures Ungroup(d) == d
  {
    if d != [] {
      UngroupDigits(d[1..]);
    }
  }

  /** Dropping the commas of the grouped digits gives the digits back. */
  lemma {:induction false} UngroupGrouped(d: seq<char>)
    requires Plain(d)
    ensures Ungroup(Grouped(d)) == d
    decreases |d|
  {
    if |d| <= 3 {
      UngroupDigits(d);
    } else {
      var p := d[..|d| - 3];
      var q := d[|d| - 3..];
      assert Grouped(d) == (Grouped(p) + [',']) + q;
      UngroupGrouped(p);
      UngroupAppend(Grouped(p) + [','], q);
      UngroupAppend(Grouped(p), [',']);
      assert Ungroup([',']) == [];
      UngroupDigits(q);
      assert p + q == d;
    }
  }

  /** Every comma of the grouped digits has exactly three characters after it before the next comma or the end. */
  lemma {:induction false} GroupedCommas(d: seq<char>, i: nat)
    requires Plain(d) && i < |Grouped(d)| && Grouped(d)[i] == ','
    ensures i + 4 <= |Grouped(d)| && Plain(Grouped(d)[i + 1..i + 4])
    ensures i + 4 < |Grouped(d)| ==> Grouped(d)[i + 4] == ','
    decreases |d|
  {
    var p := d[..|d| - 3];
    var q := d[|d| - 3..];
    var g := Grouped(p);
    assert Grouped(d) == g + [','] + q;
    if i < |g| {
      GroupedCommas(p, i);
      assert Grouped(d)[i + 1..i + 4] == g[i + 1..i + 4];
      if i + 4 < |g| {
        assert Grouped(d)[i + 4] == g[i + 4];
      }
    } else {
      assert Grouped(d)[i + 1..i + 4] == q;
    }
  }

  /** The padding is spaces in front; the text itself is kept. */
  lemma PaddedIsSpacesThenText(s: seq<char>, w: nat)
    ensures var r := Padded(s, w);
      r[|r| - |s|..] == s && forall i :: 0 <= i < |r| - |s| ==> r[i] == ' '
  {
  }

  lemma {:induction false} UnformatSpaces(n: nat, s: seq<char>)
    ensures Unformat(Repeat(' ', n) + s) == Unformat(s)
  {
    if n > 0 {
      assert (Repeat(' ', n) + s)[0] == ' ';
      assert (Repeat(' ', n) + s)[1..] == Repeat(' ', n - 1) + s;
      UnformatSpaces(n - 1, s);
    } else {
      assert Repeat(' ', n) + s == s;
    }
  }

  /** The grouped or plain digits of a magnitude read back as that magnitude. */
  lemma MagnitudeReadsBack(n: nat, thousandSeparator: bool)
    ensures var d := Decimal(n);
      var t := if thousandSeparator then Grouped(d) else d;
      ValueOf(Ungroup(t)) == n && t != [] && '0' <= t[0] <= '9'
  {
    var d := Decimal(n);
    assert Plain(d);
    ValueOfDecimal(n);
    if thousandSeparator {
      UngroupGrouped(d);
      GroupedStartsWithDigit(d);
    } else {
      UngroupDigits(d);
    }
  }

  lemma {:induction false} GroupedStartsWithDigit(d: seq<char>)
    requires d != [] && '0' <= d[0] <= '9'
    ensures Grouped(d) != [] && Grouped(d)[0] == d[0]
    decreases |d|
  {
    if |d| > 3 {
      GroupedStartsWithDigit(d[..|d| - 3]);
    }
  }

  /** The intended result reads back as the number, whatever the separator and the width. */
  lemma FormatReadsBack(num: Int64, thousandSeparator: bool, width: Int8)
    ensures Unformat(Format(num, thousandSeparator, width)) == num
  {
    var n := Magnitude(num);
    var d := Decimal(n);
    var t := if thousandSeparator then Grouped(d) else d;
    var s := (if num < 0 then ['-'] else []) + t;
    MagnitudeReadsBack(n, thousandSeparator);
    var w := FieldWidth(width);
    assert Format(num, thousandSeparator, width) == Padded(s, w);
    if |s| < w {
      UnformatSpaces(w - |s|, s);
    }
    if num < 0 {
      assert s[0] == '-' && s[1..] == t;
      assert Unformat(s) == 0 - ValueOf(Ungroup(t));
    } else {
      assert s == t && s[0] != ' ' && s[0] != '-';
      assert Unformat(s) == ValueOf(Ungroup(t));
    }
  }

  /** The result is at least as wide as the field and ends with the number's text. */
  lemma FormatWidth(num: Int64, thousandSeparator: bool, width: Int8)
    ensures var r := Format(num, thousandSeparator, width);
      |r| >= FieldWidth(width) && (|r| > FieldWidth(width) ==> r[0] != ' ')
  {
    var n := Magnitude(num);
    MagnitudeReadsBack(n, thousandSeparator);
  }

  /** As written and as intended agree on every number that is not negative. */
  lemma {:induction false} FormatAgrees(num: Int64, thousandSeparator: bool, width: Int8)
    requires num >= 0
    ensures FormatAsWritten(num, thousandSeparator, width) == Format(num, thousandSeparator, width)
  {
    var u := Unsigned(num);
    assert u == Decimal(Magnitude(num));
    if thousandSeparator {
      assert Unsignedness(u);
      SeparatedIsGrouped(u);
      assert SeparatedFrom(u, 0) == Grouped(Decimal(Magnitude(num)));
    }
  }

  /** As written, a negative number loses its digits: -5 comes out as "-", which reads back as 0. */
  lemma NegativeLosesDigitsAsWritten()
    ensures FormatAsWritten(-5, false, 0) == ['-']
    ensures Format(-5, false, 0) == ['-', '5']
    ensures Unformat(FormatAsWritten(-5, false, 0)) != -5
  {
    assert DigitsOf(5) == DigitsOf(0) + [DigitChar(5)];
    assert Unformat(['-']) == -ValueOf(Ungroup([]));
  }

  /** No '-' in the string. */
  predicate Unsignedness(s: seq<char>)
  {
    forall i :: 0 <= i < |s| ==> s[i] != '-'
  }

  /** The separator loop inserts its commas exactly where Grouped puts them, for a string with no '-'. */
  lemma {:induction false} SeparatedIsGrouped(s: seq<char>)
    requires Unsignedness(s)
    ensures SeparatedFrom(s, 0) == Grouped(s)
    decreases |s|
  {
    if |s| <= 3 {
      SeparatedShort(s, 0);
      assert s[0..] == s;
    } else {
      var m := |s| - 3;
      var p := s[..m];
      assert Unsignedness(p) by {
        forall i | 0 <= i < |p|
          ensures p[i] != '-'
        {
          assert p[i] == s[i];
        }
      }
      SeparatedSplit(s, m, 0);
      SeparatedIsGrouped(p);
      SeparatedLastBlock(s);
      GroupedStep(s);
      var g := Grouped(p);
      assert SeparatedFrom(s, 0) == g + ([','] + s[m..]);
      ConcatAssoc(g, [','], s[m..]);
    }
  }

  /** The separator loop at j: an optional comma, s[j], and the rest. */
  lemma SeparatedCons(s: seq<char>, j: nat)
    requires j < |s|
    ensures SeparatedFrom(s, j) == (if CommaBefore(s, j) then [','] else []) + [s[j]] + SeparatedFrom(s, j + 1)
  {
  }

  /** Grouped splits off the last block of three. */
  lemma GroupedStep(s: seq<char>)
    requires |s| > 3
    ensures Grouped(s) == Grouped(s[..|s| - 3]) + [','] + s[|s| - 3..]
  {
  }

  lemma ConcatAssoc(a: seq<char>, b: seq<char>, c: seq<char>)
    ensures a + (b + c) == a + b + c
  {
  }

  /** The last three characters get one comma in front, when there is something before them. */
  lemma SeparatedLastBlock(s: seq<char>)
    requires |s| > 3 && s[|s| - 3] != '-'
    ensures SeparatedFrom(s, |s| - 3) == [','] + s[|s| - 3..]
  {
    var k := |s| - 3;
    assert SeparatedFrom(s, k + 3) == [];
    assert !CommaBefore(s, k + 2) && !CommaBefore(s, k + 1) && CommaBefore(s, k);
    assert SeparatedFrom(s, k + 2) == [s[k + 2]];
    assert SeparatedFrom(s, k + 1) == [s[k + 1], s[k + 2]];
    assert s[k..] == [s[k], s[k + 1], s[k + 2]];
  }

  /** At most three characters get no comma. */
  lemma {:induction false} SeparatedShort(s: seq<char>, j: nat)
    requires |s| <= 3 && j <= |s|
    ensures SeparatedFrom(s, j) == s[j..]
    decreases |s| - j
  {
    if j < |s| {
      SeparatedShort(s, j + 1);
    }
  }

  /** In front of a block of three, the loop treats the prefix as if it ended there. */
  lemma {:induction false} SeparatedSplit(s: seq<char>, m: nat, j: nat)
    requires |s| == m + 3 && j <= m
    ensures SeparatedFrom(s, j) == SeparatedFrom(s[..m], j) + SeparatedFrom(s, m)
    decreases m - j
  {
    if j < m {
      var p := s[..m];
      SeparatedSplit(s, m, j + 1);
      var c: seq<char> := if CommaBefore(p, j) then [','] else [];
      assert s[j] == p[j];
      assert CommaBefore(s, j) == CommaBefore(p, j) by {
        assert |s| - j == (|p| - j) + 3;
      }
      var tail := SeparatedFrom(s, m);
      SeparatedCons(s, j);
      SeparatedCons(p, j);
      assert SeparatedFrom(s, j) == c + [p[j]] + (SeparatedFrom(p, j + 1) + tail);
    }
  }

  /** The separator loop adds at most one comma per three characters. */
  lemma {:induction false} SeparatedLength(s: seq<char>, j: nat)
    requires j <= |s|
    ensures |SeparatedFrom(s, j)| <= (|s| - j) + (|s| - j) / 3
    decreases |s| - j
  {
    if j < |s| {
      SeparatedLength(s, j + 1);
    }
  }

  // ---------------------------------------------------------------------
  // The loops over the static buffer
  // ---------------------------------------------------------------------

  /** The move of a[lo..hi] up by n places, from the top down, as the shift loops do it. */
  method ShiftUp(a: array<char>, lo: nat, hi: nat, n: nat)
    requires lo <= hi && hi + n <= a.Length
    modifies a
    ensures forall m :: 0 <= m < lo + n ==> a[m] == old(a[m])
    ensures forall m :: lo + n <= m < hi + n ==> a[m] == old(a[m - n])
    ensures forall m :: hi + n <= m < a.Length ==> a[m] == old(a[m])
  {
    ghost var before := a[..];
    var k := hi;
    while k > lo
      invariant lo <= k <= hi
      invariant forall m :: k + n <= m < hi + n ==> a[m] == before[m - n]
      invariant forall m :: 0 <= m < a.Length && !(k + n <= m < hi + n) ==> a[m] == before[m]
    {
      k := k - 1;
      a[k + n] := a[k];
    }
  }

  /** The digit loop and the reversal: the digits of `num`, most significant first, from index 0. */
  method WriteDigits(str: array<char>, num: nat) returns (i: nat)
    requires str.Length == BufferSize && 0 < num <= Int64Max
    modifies str
    ensures i == |DigitsOf(num)| && i <= 19 && str[..i] == DigitsOf(num)
  {
    Int64Digits(num);
    var k := num;
    i := 0;
    while k > 0
      invariant i + |DigitsOf(k)| == |DigitsOf(num)|
      invariant DigitsOf(k) + Reverse(str[..i]) == DigitsOf(num)
    {
      ghost var prefix := str[..i];
      str[i] := DigitChar(k % 10);
      assert str[..i + 1] == prefix + [DigitChar(k % 10)];
      ReverseSnoc(prefix, DigitChar(k % 10));
      i := i + 1;
      k := k / 10;
    }
    ghost var written := str[..i];
    ReverseInPlace(str, i);
    ReverseReverse(written);
  }

  /** The swap loop: str[..n] is reversed in place. */
  method ReverseInPlace(str: array<char>, n: nat)
    requires n <= str.Length
    modifies str
    ensures str[..n] == Reverse(old(str[..n])) && str[n..] == old(str[n..])
  {
    if n == 0 {
      return;
    }
    ghost var before := str[..];
    var start := 0;
    var end := n - 1;
    while start < end
      invariant 0 <= start && start + end == n - 1 && start <= end + 1
      invariant forall m :: 0 <= m < start ==> str[m] == before[n - 1 - m]
      invariant forall m :: end < m < n ==> str[m] == before[n - 1 - m]
      invariant forall m :: start <= m <= end ==> str[m] == before[m]
      invariant forall m :: n <= m < str.Length ==> str[m] == before[m]
    {
      str[start], str[end] := str[end], str[start];
      start := start + 1;
      end := end - 1;
    }
    assert str[..n] == Reverse(before[..n]);
    assert str[n..] == before[n..];
  }

  /** The thousands-separator loop over str[..i], from the last character down. */
  method InsertSeparators(str: array<char>, i0: nat) returns (i: nat)
    requires str.Length == BufferSize && i0 <= 19
    modifies str
    ensures i < BufferSize - 1 && str[..i] == SeparatedFrom(old(str[..i0]), 0)
  {
    ghost var s := str[..i0];
    i := i0;
    var count := 0;
    var j := i0;
    SeparatedFits(s, j);
    while j > 0
      invariant 0 <= j <= i0 && count == i0 - j
      invariant i == j + |SeparatedFrom(s, j)| && i <= 25
      invariant str[..i] == s[..j] + SeparatedFrom(s, j)
    {
      j := j - 1;
      count := count + 1;
      i := SeparatorTurn(str, s, j, i, count);
    }
  }

  /** One turn of the separator loop at j: a comma goes in front of str[j] when count is a multiple of three, j > 0 and str[j] is not '-'. */
  method SeparatorTurn(str: array<char>, ghost s: seq<char>, j: nat, i: nat, count: nat) returns (i': nat)
    requires str.Length == BufferSize && j < |s| <= 19 && count == |s| - j
    requires i <= 25 && i == j + 1 + |SeparatedFrom(s, j + 1)| && str[..i] == s[..j + 1] + SeparatedFrom(s, j + 1)
    modifies str
    ensures i' == j + |SeparatedFrom(s, j)| && i' <= 25 && str[..i'] == s[..j] + SeparatedFrom(s, j)
  {
    ghost var t := str[..i];
    SeparatedFits(s, j);
    SeparatedStep(s, j, t);
    assert str[j] == s[j] by {
      assert t[j] == s[..j + 1][j];
    }
    assert (count % 3 == 0 && j > 0 && str[j] != '-') == CommaBefore(s, j);
    ghost var want := s[..j] + SeparatedFrom(s, j);
    if count % 3 == 0 && j > 0 && str[j] != '-' {
      InsertComma(str, j, i);
      i' := i + 1;
      assert str[..i'] == want;
    } else {
      i' := i;
      assert str[..i'] == want;
    }
    assert |want| == j + |SeparatedFrom(s, j)|;
  }

  /** The comma branch of the separator loop: the text from j moves up one place and ',' goes in at j. */
  method InsertComma(str: array<char>, j: nat, i: nat)
    requires j <= i && i + 2 <= str.Length
    modifies str
    ensures str[..i + 1] == old(str[..i])[..j] + [','] + old(str[..i])[j..]
  {
    ghost var prev := str[..];
    ShiftUp(str, j, i + 1, 1);
    ghost var shifted := str[..];
    str[j] := ',';
    assert str[..] == shifted[j := ','];
    CommaInserted(prev, shifted, j, i);
  }

  /** Everything the separator loop writes stays below index 26. */
  lemma SeparatedFits(s: seq<char>, j: nat)
    requires j <= |s| <= 19
    ensures j + |SeparatedFrom(s, j)| <= 25
  {
    SeparatedLength(s, j);
    assert (|s| - j) / 3 <= 6;
  }

  /** The shift by one and the comma written at j. */
  lemma CommaInserted(prev: seq<char>, shifted: seq<char>, j: nat, i: nat)
    requires j <= i && i + 2 <= |prev| == |shifted|
    requires forall m :: 0 <= m < j + 1 ==> shifted[m] == prev[m]
    requires forall m :: j + 1 <= m < i + 2 ==> shifted[m] == prev[m - 1]
    ensures shifted[j := ','][..i + 1] == prev[..i][..j] + [','] + prev[..i][j..]
  {
    var r := shifted[j := ','];
    assert prev[..i][..j] == prev[..j] && prev[..i][j..] == prev[j..i];
    assert forall k :: 0 <= k < j ==> r[k] == prev[k];
    assert forall k :: j < k <= i ==> r[k] == prev[k - 1];
  }

  /** One pass of the separator loop, at position j. */
  lemma SeparatedStep(s: seq<char>, j: nat, t: seq<char>)
    requires j < |s| && t == s[..j + 1] + SeparatedFrom(s, j + 1)
    ensures var comma := CommaBefore(s, j);
      && (comma ==> t[..j] + [','] + t[j..] == s[..j] + SeparatedFrom(s, j))
      && (!comma ==> t == s[..j] + SeparatedFrom(s, j))
  {
    var rest := SeparatedFrom(s, j + 1);
    var comma := CommaBefore(s, j);
    SeparatedCons(s, j);
    assert s[..j + 1] == s[..j] + [s[j]];
    assert t[..j] == s[..j];
    assert t[j..] == [s[j]] + rest;
    if comma {
      assert t[..j] + [','] + t[j..] == s[..j] + ([','] + [s[j]] + rest);
    } else {
      assert t == s[..j] + ([s[j]] + rest);
    }
  }

  /** cnc_i_to_cca, writing into the static buffer `str`; the text is str[..len], ended by a NUL. */
  method IToCca(num: Int64, thousandSeparator: bool, width: Int8, str: array<char>) returns (len: nat)
    requires str.Length == BufferSize
    modifies str
    ensures len < BufferSize && str[..len] == FormatAsWritten(num, thousandSeparator, width) && str[len] == NulChar
  {
    var i: nat := 0;
    var neg := false;
    var fwidth := if width < 0 || width > 26 then 0 else width;
    if num == Int64Min {
      str[i] := '-';
      i := i + 1;
    } else if num < 0 {
      // The magnitude is taken here, but no branch below writes its digits.
      neg := true;
    } else if num == 0 {
      str[i] := '0';
      i := i + 1;
    } else {
      i := WriteDigits(str, num);
    }
    ghost var u := Unsigned(num);
    assert str[..i] == u;
    if thousandSeparator {
      i := InsertSeparators(str, i);
    }
    ghost var grouped := if thousandSeparator then SeparatedFrom(u, 0) else u;
    assert str[..i] == grouped;
    if neg {
      i := PrependMinus(str, i);
    }
    ghost var signed := if neg then ['-'] + grouped else grouped;
    assert str[..i] == signed;
    assert neg == (num < 0 && num != Int64Min);
    assert fwidth == FieldWidth(width);
    len := PadAndTerminate(str, i, fwidth);
  }

  /** The padding and the closing NUL of cnc_i_to_cca: str[..i] padded to fwidth, then a NUL. */
  method PadAndTerminate(str: array<char>, i: nat, fwidth: nat) returns (len: nat)
    requires str.Length == BufferSize && i < BufferSize && fwidth < BufferSize
    modifies str
    ensures len < BufferSize && str[..len] == Padded(old(str[..i]), fwidth) && str[len] == NulChar
  {
    ghost var text := Padded(str[..i], fwidth);
    len := i;
    if i < fwidth {
      PadLeft(str, i, fwidth);
      len := fwidth;
    }
    assert str[..len] == text;
    str[len] := NulChar;
    assert str[..len] == text;
  }
}
